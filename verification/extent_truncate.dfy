/**
 ext4_extent_remove_space as truncation calls it, with everything from a block on to be removed:
 a walk over all nodes to the right of the path, which takes them out and frees their blocks.
 */
module ExtentTruncate {
  import opened ExtentTree
  import opened ExtentZipper
  import opened ExtentSearch
  import opened ExtentInsert
  import opened ExtentNodes
  import opened ExtentPathOps
  import opened BlockSupply
  import opened ExtentBlocks

  ghost predicate Hollow(t: Tree) { if t.Leaf? then t.exts == [] else t.entries == [] }

  /** A node of which what lies left of the path stays, and t if anything is left of it. */
  ghost function KeepOne(l: Level, t: Tree): Tree
    requires l.pos < |l.entries|
  {
    Node(l.blk, l.max, l.entries[..l.pos] + if Hollow(t) then [] else [Entry(l.Key(), t)])
  }

  /** The tree that remains when everything right of the path goes and t is what is left at its end. */
  ghost function KeepUp(up: seq<Level>, t: Tree): Tree
    requires Positioned(up)
  {
    if up == [] then t else KeepOne(up[0], KeepUp(up[1..], t))
  }

  /** Every node that remains is where it was, with the entries that it had first; only a leaf's last extent may be another one. */
  ghost predicate Trimmed(t: Tree, t': Tree)
    decreases t
  {
    && t'.blk == t.blk && t'.max == t.max
    && match t
       case Leaf(_, _, exts) =>
         && t'.Leaf? && |t'.exts| <= |exts| && (t'.exts != [] ==> t'.exts[..|t'.exts| - 1] == exts[..|t'.exts| - 1])
       case Node(_, _, entries) =>
         && t'.Node? && |t'.entries| <= |entries|
         && forall i :: 0 <= i < |t'.entries| ==>
             t'.entries[i].key == entries[i].key && Trimmed(entries[i].child, t'.entries[i].child)
  }

  lemma {:induction false} TrimmedSelf(t: Tree)
    ensures Trimmed(t, t)
  {
    if t.Node? {
      forall i | 0 <= i < |t.entries| ensures Trimmed(t.entries[i].child, t.entries[i].child) {
        TrimmedSelf(t.entries[i].child);
      }
    }
  }

  /** What remains beside a path is the tree trimmed. */
  lemma {:induction false} KeepTrimmed(up: seq<Level>, t: Tree, t': Tree)
    requires Positioned(up) && Trimmed(t, t')
    ensures Trimmed(Plug(up, t), KeepUp(up, t'))
  {
    if up != [] {
      var l := up[0];
      KeepTrimmed(up[1..], t, t');
      forall i | 0 <= i < l.pos ensures Trimmed(l.entries[i].child, l.entries[i].child) {
        TrimmedSelf(l.entries[i].child);
      }
    }
  }

  /** The blocks of the nodes on the path and of everything beside it. */
  ghost function OwnedUp(up: seq<Level>): multiset<nat>
    requires Positioned(up)
  {
    if up == [] then multiset{} else Beside(up[0]) + OwnedUp(up[1..])
  }

  /** A level's own block and the blocks of what lies left and right of the path. */
  ghost function Beside(l: Level): multiset<nat>
    requires l.HasPos()
  {
    multiset{l.blk} + OwnedAll(l.entries[..l.pos]) + OwnedAll(l.entries[l.pos + 1..])
  }

  ghost function CountNodes(t: Tree): nat
    decreases t, 0
  {
    1 + if t.Leaf? then 0 else CountAll(t.entries)
  }

  ghost function CountAll(entries: seq<Entry>): nat
    decreases entries, 0
  {
    if entries == [] then 0 else CountEntry(entries[0]) + CountAll(entries[1..])
  }

  ghost function CountEntry(e: Entry): nat
    decreases e, 0
  {
    CountNodes(e.child)
  }

  /** The nodes right of the path. */
  ghost function RightCount(up: seq<Level>): nat
    requires Positioned(up)
  {
    if up == [] then 0 else CountAll(up[0].entries[up[0].pos + 1..]) + RightCount(up[1..])
  }

  lemma {:induction false} KeepSnoc(up: seq<Level>, l: Level, t: Tree)
    requires Positioned(up) && l.HasPos()
    ensures Positioned(up + [l]) && KeepUp(up + [l], t) == KeepUp(up, KeepOne(l, t))
  {
    hide KeepOne;
    if up == [] {
      assert up + [l] == [l] && [l][1..] == [];
    } else {
      assert (up + [l])[1..] == up[1..] + [l];
      KeepSnoc(up[1..], l, t);
    }
  }

  lemma {:induction false} OwnedSnoc(up: seq<Level>, l: Level)
    requires Positioned(up) && l.HasPos()
    ensures Positioned(up + [l]) && OwnedUp(up + [l]) == OwnedUp(up) + Beside(l)
    ensures RightCount(up + [l]) == RightCount(up) + CountAll(l.entries[l.pos + 1..])
  {
    hide Beside, CountAll;
    if up == [] {
      assert up + [l] == [l] && [l][1..] == [];
    } else {
      assert (up + [l])[1..] == up[1..] + [l];
      OwnedSnoc(up[1..], l);
    }
  }

  lemma KeepUpSnoc(up: seq<Level>, l: Level, t: Tree)
    requires Positioned(up) && l.HasPos()
    ensures Positioned(up + [l]) && KeepUp(up + [l], t) == KeepUp(up, KeepOne(l, t))
    ensures OwnedUp(up + [l]) == OwnedUp(up) + Beside(l)
    ensures RightCount(up + [l]) == RightCount(up) + CountAll(l.entries[l.pos + 1..])
  {
    hide KeepUp, OwnedUp, RightCount;
    KeepSnoc(up, l, t);
    OwnedSnoc(up, l);
  }

  lemma {:induction false} OwnedConcat(a: seq<Entry>, b: seq<Entry>)
    ensures OwnedAll(a + b) == OwnedAll(a) + OwnedAll(b) && CountAll(a + b) == CountAll(a) + CountAll(b)
    decreases |a|
  {
    if a == [] {
      assert a + b == b;
    } else {
      assert (a + b)[1..] == a[1..] + b;
      OwnedConcat(a[1..], b);
    }
  }

  lemma OwnedAt(entries: seq<Entry>, pos: nat)
    requires pos < |entries|
    ensures OwnedAll(entries) == OwnedAll(entries[..pos]) + Owned(entries[pos].child) + OwnedAll(entries[pos + 1..])
    ensures CountAll(entries[pos..]) == CountNodes(entries[pos].child) + CountAll(entries[pos + 1..])
    ensures OwnedAll([entries[pos]]) == Owned(entries[pos].child)
  {
    hide Owned, CountNodes, OwnedAll, CountAll;
    var e := entries[pos];
    assert entries == entries[..pos] + ([e] + entries[pos + 1..]) && [e][1..] == [] && entries[pos..] == [e] + entries[pos + 1..];
    OwnedConcat(entries[..pos], [e] + entries[pos + 1..]);
    OwnedConcat([e], entries[pos + 1..]);
    OneEntry(e);
  }

  lemma OneEntry(e: Entry)
    ensures OwnedAll([e]) == Owned(e.child) && CountAll([e]) == CountNodes(e.child)
  {
    hide Owned, CountNodes;
    assert [e][1..] == [];
  }

  // ----- what is kept -----

  lemma {:induction false} KeepFlat(up: seq<Level>, t: Tree)
    requires Positioned(up)
    ensures Flat(KeepUp(up, t)) == LeftFlat(up) + Flat(t)
  {
    if up != [] {
      KeepFlat(up[1..], t);
      OneFlat(up[0], KeepUp(up[1..], t));
    }
  }

  lemma OneFlat(l: Level, t: Tree)
    requires l.HasPos()
    ensures Flat(KeepOne(l, t)) == FlatAll(l.entries[..l.pos]) + Flat(t)
  {
    if Hollow(t) {
      assert l.entries[..l.pos] + [] == l.entries[..l.pos];
    } else {
      FlatAllConcat(l.entries[..l.pos], [Entry(l.Key(), t)]);
      FlatAllOne(Entry(l.Key(), t));
    }
  }

  /** What is kept of a sound level, if anything, is sound and begins where the level began. */
  lemma KeepOneOk(l: Level, t: Tree, depth: nat, first: nat, max: nat, blockMax: nat)
    requires LevelOk(l, depth, first, max, blockMax)
    requires Hollow(t) || (SubOk(t, depth, blockMax) && First(t) == first)
    ensures var r := KeepOne(l, t);
            && r.Node? && r.max == max && |r.entries| <= max
            && (forall i {:trigger r.entries[i]} :: 0 <= i < |r.entries| ==> EntryOk(r.entries[i], depth, blockMax))
            && (!Hollow(r) ==> First(r) == if l.pos == 0 then first else l.entries[0].key)
            && (Hollow(r) <==> l.pos == 0 && Hollow(t))
  {
    hide SubOk;
    var r := KeepOne(l, t);
    forall i | 0 <= i < |r.entries| ensures EntryOk(r.entries[i], depth, blockMax) {
      if i < l.pos {
        assert r.entries[i] == l.entries[i];
      } else {
        assert r.entries[i] == Entry(l.Key(), t);
      }
    }
  }

  lemma {:induction false} KeepUpOk(up: seq<Level>, t: Tree, first: nat, topMax: nat, blockMax: nat)
    requires up != [] && PathOk(up, 0, first, topMax, blockMax)
    requires Hollow(t) || (SubOk(t, 0, blockMax) && First(t) == first)
    ensures Positioned(up)
    ensures var r := KeepUp(up, t);
            && r.Node? && r.max == topMax && |r.entries| <= topMax
            && (forall i {:trigger r.entries[i]} :: 0 <= i < |r.entries| ==> EntryOk(r.entries[i], |up| - 1, blockMax))
            && (!Hollow(r) ==> First(r) == TopFirst(up, first))
  {
    hide LevelOk, KeepOne, EntryOk;
    PathPositioned(up, 0, first, topMax, blockMax);
    var below := KeepUp(up[1..], t);
    if |up| == 1 {
      assert up[1..] == [];
    } else {
      KeepUpOk(up[1..], t, first, blockMax, blockMax);
      NodeIsSub(below, |up| - 1, blockMax);
    }
    KeepOneOk(up[0], below, |up| - 1, TopFirst(up[1..], first), topMax, blockMax);
  }

  lemma NodeIsSub(t: Tree, depth: nat, blockMax: nat)
    requires depth > 0 && t.Node? && t.max == blockMax && |t.entries| <= blockMax
    requires forall i {:trigger t.entries[i]} :: 0 <= i < |t.entries| ==> EntryOk(t.entries[i], depth - 1, blockMax)
    ensures !Hollow(t) ==> SubOk(t, depth, blockMax)
  {
  }

  // ----- the calls that free blocks -----

  /** The blocks of a list of calls, each for a run of blocks. */
  ghost function Freed(frees: seq<(nat, nat)>): multiset<nat> {
    if frees == [] then multiset{} else Freed(frees[..|frees| - 1]) + Range(frees[|frees| - 1].0, frees[|frees| - 1].1)
  }

  lemma FreedSnoc(frees: seq<(nat, nat)>, start: nat, n: nat)
    ensures Freed(frees + [(start, n)]) == Freed(frees) + Range(start, n)
    ensures Range(start, 1) == multiset{start}
  {
    assert (frees + [(start, n)])[..|frees|] == frees;
    assert Run(start, 1) == [start];
  }

  /** An extent that loses everything from a block on. */
  function Shortened(e: Extent, from: nat): Extent
    requires e.firstBlock < from
  {
    e.(blockCount := if e.IsUnwritten() then MarkUnwritten((from - e.firstBlock) % 0x1_0000) else (from - e.firstBlock) % 0x1_0000)
  }

  lemma ShortenedOk(e: Extent, from: nat)
    requires e.Valid() && e.firstBlock < from < e.End()
    ensures var s := Shortened(e, from);
            s.Valid() && s.End() == from && s.IsUnwritten() == e.IsUnwritten() && s.start == e.start && s.Len() == from - e.firstBlock
  {
  }

  lemma ShortenedMap(e: Extent, from: nat)
    requires e.Valid() && e.firstBlock < from < e.End()
    ensures ExtentMap(Shortened(e, from)) == map b | b in ExtentMap(e) && b < from :: ExtentMap(e)[b]
  {
    hide Shortened;
    ShortenedOk(e, from);
    var s := Shortened(e, from);
    forall b: nat ensures s.Covers(b) <==> e.Covers(b) && b < from {}
  }

  /** What ext4_ext_remove_leaf leaves of the extents from pos on. */
  function Front(e: Extent, from: nat): seq<Extent> { if e.firstBlock < from then [Shortened(e, from)] else [] }

  lemma LeafStep(exts: seq<Extent>, pos: nat, ex: nat, from: nat, frees: seq<(nat, nat)>)
    requires Sorted(exts) && pos <= ex < |exts| && from < exts[pos].End()
    ensures exts[ex].Valid() && (ex > pos ==> from <= exts[ex].firstBlock)
    ensures DataOf(exts[ex..]) == Range(exts[ex].start, exts[ex].Len()) + DataOf(exts[ex + 1..])
    ensures var e := exts[ex]; Freed(frees + [(e.start, e.Len())]) == Freed(frees) + Range(e.start, e.Len())
  {
    hide DataOf, Freed, Range;
    var e := exts[ex];
    assert exts[ex..] == [e] + exts[ex + 1..];
    DataConcat([e], exts[ex + 1..]);
    DataOne(e);
    FreedSnoc(frees, e.start, e.Len());
  }

  lemma LeafFront(exts: seq<Extent>, pos: nat, from: nat, frees: seq<(nat, nat)>)
    requires Sorted(exts) && pos < |exts| && from < exts[pos].End()
    ensures var e := exts[pos];
      if e.firstBlock < from then
        && DataOf(exts[..pos] + Front(e, from)) == DataOf(exts[..pos]) + Range(e.start, from - e.firstBlock)
        && Freed(frees + [(e.start + (from - e.firstBlock), e.Len() - (from - e.firstBlock))]) + Range(e.start, from - e.firstBlock)
        == Freed(frees) + Range(e.start, e.Len())
      else exts[..pos] + Front(e, from) == exts[..pos]
    ensures DataOf(exts) == DataOf(exts[..pos]) + DataOf(exts[pos..])
    ensures exts == exts[..pos] + exts[pos..]
  {
    hide DataOf, Freed, Range, Shortened;
    var e := exts[pos];
    DataConcat(exts[..pos], exts[pos..]);
    assert exts == exts[..pos] + exts[pos..];
    if e.firstBlock < from {
      ShortenedOk(e, from);
      DataConcat(exts[..pos], [Shortened(e, from)]);
      DataOne(Shortened(e, from));
      RangeSplit(e.start, from - e.firstBlock, e.End() - from);
      FreedSnoc(frees, e.start + (from - e.firstBlock), e.Len() - (from - e.firstBlock));
    }
  }

  /** ext4_ext_remove_leaf, when everything behind from goes: at most the extent at pos begins before it. */
  method RemoveLeaf(exts: seq<Extent>, pos: nat, from: nat, frees: seq<(nat, nat)>) returns (exts': seq<Extent>, frees': seq<(nat, nat)>)
    requires Sorted(exts) && pos < |exts| && from < exts[pos].End()
    ensures exts' == exts[..pos] + Front(exts[pos], from)
    ensures DataOf(exts') + Freed(frees') == DataOf(exts) + Freed(frees)
  {
    hide DataOf, Freed, Range, Shortened, Sorted;
    exts', frees' := exts, frees;
    var ex, newEntries := pos, |exts|;
    ghost var kept := exts[..pos] + Front(exts[pos], from);
    LeafFront(exts, pos, from, frees);
    while ex < |exts'|
      invariant pos <= ex <= |exts'| == |exts| && (ex == pos ==> frees' == frees)
      invariant exts' == if ex > pos && exts[pos].firstBlock < from then exts[pos := Shortened(exts[pos], from)] else exts
      invariant newEntries == if ex == pos then |exts| else |exts| - (ex - pos) + |Front(exts[pos], from)|
      invariant DataOf(if ex > pos then kept else exts[..pos]) + Freed(frees') + DataOf(exts[ex..]) == DataOf(exts) + Freed(frees)
    {
      var e := exts'[ex];
      LeafStep(exts, pos, ex, from, frees');
      if e.firstBlock < from {
        var newLen := from - e.firstBlock;
        frees' := frees' + [(e.start + newLen, e.Len() - newLen)];
        exts' := exts'[ex := Shortened(e, from)];
      } else {
        frees' := frees' + [(e.start, e.Len())];
        newEntries := newEntries - 1;
      }
      ex := ex + 1;
    }
    NoData(exts);
    exts' := exts'[..newEntries];
    assert exts' == kept;
  }

  lemma NoData(exts: seq<Extent>)
    ensures DataOf(exts[|exts|..]) == multiset{}
  {
  }

  // ----- the walk -----

  ghost predicate AtOrBehind(exts: seq<Extent>, from: nat) { forall i :: 0 <= i < |exts| ==> from <= exts[i].firstBlock }

  /** A sound subtree with its extents in order, all of them behind the block to truncate to. */
  ghost predicate Sane(t: Tree, depth: nat, cut: Truncation) { SubOk(t, depth, cut.blockMax) && Sorted(Flat(t)) && AtOrBehind(Flat(t), cut.from) }

  /** From which block on to remove, and how large the nodes are. */
  datatype Truncation = Truncation(from: nat, blockMax: nat)

  ghost predicate AllSane(entries: seq<Entry>, depth: nat, cut: Truncation) {
    forall i {:trigger entries[i]} :: 0 <= i < |entries| ==> Sane(entries[i].child, depth, cut)
  }

  /** Everything right of the path is sound; depth is that of the first level's children. */
  ghost predicate RightSane(up: seq<Level>, depth: int, cut: Truncation)
    requires Positioned(up)
  {
    up == [] || (depth >= 0 && AllSane(up[0].entries[up[0].pos + 1..], depth, cut) && RightSane(up[1..], depth - 1, cut))
  }

  lemma {:induction false} RightSaneSnoc(up: seq<Level>, l: Level, depth: int, cut: Truncation)
    requires Positioned(up) && l.HasPos()
    ensures Positioned(up + [l])
    ensures RightSane(up + [l], depth, cut) <==>
      && RightSane(up, depth, cut) && depth >= |up|
      && AllSane(l.entries[l.pos + 1..], depth - |up|, cut)
  {
    hide AllSane;
    if up == [] {
      assert up + [l] == [l] && [l][1..] == [];
    } else {
      assert (up + [l])[1..] == up[1..] + [l];
      RightSaneSnoc(up[1..], l, depth - 1, cut);
    }
  }

  /** The functions of a path, one level down. */
  lemma TopLevel(up: seq<Level>, depth: int, cut: Truncation)
    requires Positioned(up) && up != []
    ensures OwnedUp(up) == Beside(up[0]) + OwnedUp(up[1..])
    ensures RightCount(up) == CountAll(up[0].entries[up[0].pos + 1..]) + RightCount(up[1..])
    ensures RightSane(up, depth, cut) <==>
      depth >= 0 && AllSane(up[0].entries[up[0].pos + 1..], depth, cut) && RightSane(up[1..], depth - 1, cut)
  {
    hide Beside, CountAll, AllSane;
  }

  lemma {:induction false} KeysKept(up: seq<Level>, k: nat, key: nat, t: Tree)
    requires Positioned(up) && k < |up| && Hollow(t) && forall i :: k < i < |up| ==> up[i].pos == 0
    ensures Positioned(up[k := up[k].WithKey(key)]) && KeepUp(up[k := up[k].WithKey(key)], t) == KeepUp(up, t)
  {
    hide KeepOne, Hollow;
    var l := up[k].WithKey(key);
    if k == 0 {
      StaysHollow(up[1..], t);
      assert up[0 := l][1..] == up[1..];
      KeyUnused(up[0], key, KeepUp(up[1..], t));
    } else {
      assert up[k := l][1..] == up[1..][k - 1 := l];
      KeysKept(up[1..], k - 1, key, t);
    }
  }

  lemma {:induction false} KeysOnly(up: seq<Level>, k: nat, key: nat, depth: int, cut: Truncation)
    requires Positioned(up) && k < |up|
    ensures var up' := up[k := up[k].WithKey(key)];
            && Positioned(up') && OwnedUp(up') == OwnedUp(up) && RightCount(up') == RightCount(up)
            && (RightSane(up, depth, cut) <==> RightSane(up', depth, cut))
  {
    hide OwnedUp, RightCount, RightSane, Beside, CountAll, AllSane, KeepUp;
    BesideKey(up[k], key);
    var l, up' := up[k].WithKey(key), up[k := up[k].WithKey(key)];
    WithKeyFlat(up[k], key);
    TopLevel(up, depth, cut);
    TopLevel(up', depth, cut);
    if k == 0 {
      assert up'[1..] == up[1..];
    } else {
      assert up'[1..] == up[1..][k - 1 := l];
      KeysOnly(up[1..], k - 1, key, depth - 1, cut);
    }
  }

  lemma BesideKey(l: Level, key: nat)
    requires l.HasPos()
    ensures Beside(l.WithKey(key)) == Beside(l)
  {
    hide OwnedAll;
    WithKeyFlat(l, key);
  }

  lemma KeyUnused(l: Level, key: nat, t: Tree)
    requires l.HasPos() && Hollow(t)
    ensures KeepOne(l.WithKey(key), t) == KeepOne(l, t)
  {
    WithKeyFlat(l, key);
  }

  lemma {:induction false} StaysHollow(up: seq<Level>, t: Tree)
    requires Positioned(up) && Hollow(t) && forall i :: 0 <= i < |up| ==> up[i].pos == 0
    ensures Hollow(KeepUp(up, t))
  {
    if up != [] {
      StaysHollow(up[1..], t);
    }
  }

  /** The node that the walk is at, as far as it is kept: the entries before the cursor. */
  ghost function KeptNode(l: Level): Tree
    requires l.pos <= |l.entries|
  {
    Node(l.blk, l.max, l.entries[..l.pos])
  }

  /** ext4_ext_remove_idx; leaf is the block of the entry's child */
  method RemoveIdx(up: seq<Level>, l: Level, leaf: nat, frees: seq<(nat, nat)>, ghost depth: int, ghost cut: Truncation)
    returns (up': seq<Level>, l': Level, frees': seq<(nat, nat)>)
    requires Positioned(up) && l.HasPos() && RightSane(up, depth, cut)
    ensures Positioned(up') && |up'| == |up| && OwnedUp(up') == OwnedUp(up) && RightCount(up') == RightCount(up)
    ensures RightSane(up', depth, cut)
    ensures l' == l.(entries := l.entries[..l.pos] + l.entries[l.pos + 1..]) && KeptNode(l') == KeptNode(l)
    ensures KeepUp(up', KeptNode(l')) == KeepUp(up, KeptNode(l))
    ensures Freed(frees') == Freed(frees) + multiset{leaf}
  {
    hide KeepUp, OwnedUp, RightCount, RightSane, Freed, Range;
    FreedSnoc(frees, leaf, 1);
    var key := l.Key();
    l' := l.(entries := l.entries[..l.pos] + l.entries[l.pos + 1..]);
    assert l'.entries[..l.pos] == l.entries[..l.pos];
    frees' := frees + [(leaf, 1)];
    if l'.pos < |l'.entries| {
      key := l'.Key();
    }
    up' := up;
    var i, pos := |up|, l.pos;
    while i > 0
      invariant 0 <= i <= |up| == |up'| && Positioned(up') && pos == (if i == |up| then l.pos else up'[i].pos)
      invariant i < |up| ==> l.pos == 0 && forall k :: i < k < |up| ==> up'[k].pos == 0
      invariant OwnedUp(up') == OwnedUp(up) && RightCount(up') == RightCount(up) && RightSane(up', depth, cut)
      invariant KeepUp(up', KeptNode(l)) == KeepUp(up, KeptNode(l))
    {
      if pos != 0 {
        break;
      }
      KeysKept(up', i - 1, key, KeptNode(l));
      KeysOnly(up', i - 1, key, depth, cut);
      up' := up'[i - 1 := up'[i - 1].WithKey(key)];
      i, pos := i - 1, up'[i - 1].pos;
    }
  }

  /** A child of a sane node is sane. */
  lemma SaneChild(t: Tree, depth: nat, cut: Truncation)
    requires Sane(t, depth, cut) && t.Node?
    ensures depth > 0 && AllSane(t.entries, depth - 1, cut)
  {
    hide SubOk, Flat, FlatAll;
    NodeParts(t, depth, cut.blockMax);
    forall i | 0 <= i < |t.entries| ensures Sane(t.entries[i].child, depth - 1, cut) {
      FlatAllAt(t.entries, i);
      var a, m, b := FlatAll(t.entries[..i]), Flat(t.entries[i].child), FlatAll(t.entries[i + 1..]);
      SortedParts(a + m, b);
      SortedParts(a, m);
      EntryChild(t.entries[i], depth - 1, cut.blockMax);
      MiddleBehind(a, m, b, cut.from);
    }
  }

  lemma NodeParts(t: Tree, depth: nat, blockMax: nat)
    requires SubOk(t, depth, blockMax) && t.Node?
    ensures depth > 0 && Flat(t) == FlatAll(t.entries) && EntriesOk(t.entries, depth - 1, blockMax)
  {
  }

  lemma MiddleBehind(a: seq<Extent>, m: seq<Extent>, b: seq<Extent>, from: nat)
    requires AtOrBehind(a + m + b, from)
    ensures AtOrBehind(a, from) && AtOrBehind(m, from) && AtOrBehind(b, from)
  {
    var w := a + m + b;
    assert forall i :: 0 <= i < |a| ==> a[i] == w[i];
    assert forall i :: 0 <= i < |m| ==> m[i] == w[|a| + i];
    assert forall i :: 0 <= i < |b| ==> b[i] == w[|a| + |m| + i];
  }

  /** The walk is at node cur below up: rest is what will remain, and no block is lost or freed twice. */
  ghost predicate AtWalk(up: seq<Level>, cur: Level, depth: int, cut: Truncation, rest: Tree, total: multiset<nat>, frees: seq<(nat, nat)>) {
    && Positioned(up) && cur.pos <= |cur.entries| && KeepUp(up, KeptNode(cur)) == rest
    && OwnedUp(up) + multiset{cur.blk} + OwnedAll(cur.entries) + Freed(frees) == total
    && RightSane(up, depth, cut) && depth >= |up| && AllSane(cur.entries[cur.pos..], depth - |up|, cut)
  }

  /** What the walk still has before it. */
  ghost function Ahead(up: seq<Level>, cur: Level): nat
    requires Positioned(up) && cur.pos <= |cur.entries|
  {
    2 * (RightCount(up) + CountAll(cur.entries[cur.pos..])) + |up|
  }

  /** Down into the node that the cursor names. */
  lemma WalkDown(up: seq<Level>, cur: Level, depth: int, cut: Truncation, rest: Tree, total: multiset<nat>, frees: seq<(nat, nat)>)
    requires AtWalk(up, cur, depth, cut, rest, total, frees) && cur.HasPos() && cur.entries[cur.pos].child.Node?
    ensures var t := cur.entries[cur.pos].child; var cur' := Level(t.blk, t.max, t.entries, 0);
            AtWalk(up + [cur], cur', depth, cut, rest, total, frees) && Ahead(up + [cur], cur') < Ahead(up, cur)
  {
    hide KeepUp, OwnedUp, RightCount, RightSane, Freed, OwnedAll, CountAll, Sane;
    var t := cur.entries[cur.pos].child;
    var cur' := Level(t.blk, t.max, t.entries, 0);
    KeepUpSnoc(up, cur, KeptNode(cur'));
    RightSaneSnoc(up, cur, depth, cut);
    OwnedAt(cur.entries, cur.pos);
    assert cur.entries[cur.pos..][0] == cur.entries[cur.pos];
    SaneChild(t, depth - |up|, cut);
    TailSane(cur, depth - |up|, cut);
    NodeOwns(t);
    HollowKept(cur, cur');
    assert t.entries[0..] == t.entries;
  }

  lemma TailSane(l: Level, depth: nat, cut: Truncation)
    requires l.HasPos() && AllSane(l.entries[l.pos..], depth, cut)
    ensures AllSane(l.entries[l.pos + 1..], depth, cut)
  {
    hide Sane;
    var a, b := l.entries[l.pos..], l.entries[l.pos + 1..];
    assert forall i :: 0 <= i < |b| ==> b[i] == a[i + 1];
  }

  lemma NodeOwns(t: Tree)
    ensures t.Node? ==> Owned(t) == multiset{t.blk} + OwnedAll(t.entries) && CountNodes(t) == 1 + CountAll(t.entries)
    ensures t.Leaf? ==> Owned(t) == multiset{t.blk} + DataOf(t.exts) && CountNodes(t) == 1
  {
  }

  lemma HollowKept(l: Level, below: Level)
    requires l.HasPos() && below.pos == 0
    ensures KeepOne(l, KeptNode(below)) == KeptNode(l)
  {
    assert below.entries[..0] == [];
    assert l.entries[..l.pos] + [] == l.entries[..l.pos];
  }

  /** The leaf that the cursor names is gone. */
  lemma WalkOff(up: seq<Level>, up': seq<Level>, cur: Level, cur': Level, depth: int, cut: Truncation, rest: Tree, total: multiset<nat>,
                frees: seq<(nat, nat)>, frees': seq<(nat, nat)>)
    requires AtWalk(up, cur, depth, cut, rest, total, frees) && cur.HasPos() && Positioned(up') && |up'| == |up|
    requires OwnedUp(up') == OwnedUp(up) && RightCount(up') == RightCount(up) && RightSane(up', depth, cut)
    requires cur' == cur.(entries := cur.entries[..cur.pos] + cur.entries[cur.pos + 1..])
    requires KeepUp(up', KeptNode(cur')) == KeepUp(up, KeptNode(cur))
    requires Freed(frees') == Freed(frees) + Owned(cur.entries[cur.pos].child)
    ensures AtWalk(up', cur', depth, cut, rest, total, frees') && Ahead(up', cur') < Ahead(up, cur)
  {
    hide KeepUp, OwnedUp, RightCount, RightSane, Freed, OwnedAll, CountAll, Sane, Owned, KeptNode;
    OwnedAt(cur.entries, cur.pos);
    OwnedConcat(cur.entries[..cur.pos], cur.entries[cur.pos + 1..]);
    TailSane(cur, depth - |up|, cut);
    AtLeastOne(cur.entries[cur.pos].child);
    assert cur'.entries[cur'.pos..] == cur.entries[cur.pos + 1..];
  }

  lemma AtLeastOne(t: Tree)
    ensures CountNodes(t) > 0
  {
  }

  /** Up from a node of which nothing is left; its parent l loses the entry. */
  lemma WalkUpEmpty(up: seq<Level>, up': seq<Level>, l: Level, l': Level, cur: Level, depth: int, cut: Truncation, rest: Tree,
                    total: multiset<nat>, frees: seq<(nat, nat)>, frees': seq<(nat, nat)>)
    requires l.HasPos() && AtWalk(up + [l], cur, depth, cut, rest, total, frees) && cur.entries == []
    requires Positioned(up) && Positioned(up') && |up'| == |up|
    requires OwnedUp(up') == OwnedUp(up) && RightCount(up') == RightCount(up) && (RightSane(up, depth, cut) ==> RightSane(up', depth, cut))
    requires l' == l.(entries := l.entries[..l.pos] + l.entries[l.pos + 1..])
    requires KeepUp(up', KeptNode(l')) == KeepUp(up, KeptNode(l))
    requires Freed(frees') == Freed(frees) + multiset{cur.blk}
    ensures AtWalk(up', l', depth, cut, rest, total, frees') && Ahead(up', l') < Ahead(up + [l], cur)
  {
    hide KeepUp, OwnedUp, RightCount, RightSane, Freed, OwnedAll, CountAll, Sane;
    KeepUpSnoc(up, l, KeptNode(cur));
    RightSaneSnoc(up, l, depth, cut);
    OwnedConcat(l.entries[..l.pos], l.entries[l.pos + 1..]);
    HollowKept(l, cur);
    NothingOwned();
    assert l'.entries[l'.pos..] == l.entries[l.pos + 1..];
  }

  lemma NothingOwned()
    ensures OwnedAll([]) == multiset{} && CountAll([]) == 0
  {
  }

  /** Up from a node of which something is left; the cursor of its parent l moves on. */
  lemma WalkUpKept(up: seq<Level>, l: Level, cur: Level, depth: int, cut: Truncation, rest: Tree, total: multiset<nat>, frees: seq<(nat, nat)>)
    requires l.HasPos() && AtWalk(up + [l], cur, depth, cut, rest, total, frees) && cur.entries != [] && cur.pos == |cur.entries|
    requires Positioned(up)
    ensures var l' := Level(l.blk, l.max, l.entries[l.pos := Entry(l.Key(), Node(cur.blk, cur.max, cur.entries))], l.pos + 1);
            AtWalk(up, l', depth, cut, rest, total, frees) && Ahead(up, l') < Ahead(up + [l], cur)
  {
    hide KeepUp, OwnedUp, RightCount, RightSane, Freed, OwnedAll, CountAll, Sane, Owned, CountNodes;
    var t := Node(cur.blk, cur.max, cur.entries);
    var l' := Level(l.blk, l.max, l.entries[l.pos := Entry(l.Key(), t)], l.pos + 1);
    KeepUpSnoc(up, l, KeptNode(cur));
    RightSaneSnoc(up, l, depth, cut);
    NodeOwns(t);
    OwnedAt(l'.entries, l.pos);
    NothingOwned();
    assert KeptNode(cur) == t && cur.entries[cur.pos..] == [];
    assert l'.entries[..l.pos] == l.entries[..l.pos] && l'.entries[l.pos + 1..] == l.entries[l.pos + 1..];
    assert l'.entries[..l'.pos] == l.entries[..l.pos] + [Entry(l.Key(), t)];
  }

  /**
   The loop of ext4_extent_remove_space, from where the path's own leaf is done with: down into the next node to
   the right, through it, and up again.  The walk has no stack but the path.
   */
  method RemoveRight(up0: seq<Level>, cur0: Level, frees0: seq<(nat, nat)>, from: nat, ghost depth: int, ghost cut: Truncation,
                     ghost rest: Tree, ghost total: multiset<nat>)
    returns (root: Tree, frees: seq<(nat, nat)>)
    requires cut.from == from && AtWalk(up0, cur0, depth, cut, rest, total, frees0)
    ensures root == rest && Owned(root) + Freed(frees) == total
  {
    hide AtWalk, KeepUp, OwnedUp, RightCount, RightSane, Freed, OwnedAll, CountAll, Sane, Ahead;
    var up, cur := up0, cur0;
    frees := frees0;
    WalkParts(up, cur, depth, cut, rest, total, frees);
    while cur.pos < |cur.entries| || up != []
      invariant AtWalk(up, cur, depth, cut, rest, total, frees) && Positioned(up) && cur.pos <= |cur.entries|
      decreases Ahead(up, cur)
    {
      WalkParts(up, cur, depth, cut, rest, total, frees);
      if cur.pos < |cur.entries| {
        var t := cur.entries[cur.pos].child;
        if t.Node? {
          WalkDown(up, cur, depth, cut, rest, total, frees);
          up, cur := up + [cur], Level(t.blk, t.max, t.entries, 0);
        } else {
          ghost var up1, cur1, frees1 := up, cur, frees;
          var exts;
          exts, frees := RemoveWholeLeaf(t, from, frees, depth - |up|, cut);
          up, cur, frees := RemoveIdx(up, cur, t.blk, frees, depth, cut);
          NodeOwns(t);
          WalkOff(up1, up, cur1, cur, depth, cut, rest, total, frees1, frees);
        }
      } else {
        var n := |up| - 1;
        var l, below := up[n], cur;
        assert up == up[..n] + [l];
        WalkParts(up, cur, depth, cut, rest, total, frees);
        if below.entries == [] {
          var up1 := up[..n];
          ghost var frees1 := frees;
          RightSaneSnoc(up1, l, depth, cut);
          up, cur, frees := RemoveIdx(up1, l, below.blk, frees, depth, cut);
          WalkUpEmpty(up1, up, l, cur, below, depth, cut, rest, total, frees1, frees);
        } else {
          WalkUpKept(up[..n], l, below, depth, cut, rest, total, frees);
          cur := Level(l.blk, l.max, l.entries[l.pos := Entry(l.Key(), Node(below.blk, below.max, below.entries))], l.pos + 1);
          up := up[..n];
        }
      }
    }
    WalkEnds(cur, depth, cut, rest, total, frees);
    root := Node(cur.blk, cur.max, cur.entries);
  }

  lemma WalkParts(up: seq<Level>, cur: Level, depth: int, cut: Truncation, rest: Tree, total: multiset<nat>, frees: seq<(nat, nat)>)
    requires AtWalk(up, cur, depth, cut, rest, total, frees)
    ensures Positioned(up) && cur.pos <= |cur.entries| && RightSane(up, depth, cut) && depth >= |up|
    ensures cur.HasPos() ==> Sane(cur.entries[cur.pos].child, depth - |up|, cut)
  {
    assert cur.HasPos() ==> cur.entries[cur.pos..][0] == cur.entries[cur.pos];
  }

  lemma WalkEnds(cur: Level, depth: int, cut: Truncation, rest: Tree, total: multiset<nat>, frees: seq<(nat, nat)>)
    requires AtWalk([], cur, depth, cut, rest, total, frees) && cur.pos == |cur.entries|
    ensures Node(cur.blk, cur.max, cur.entries) == rest && Owned(rest) + Freed(frees) == total
  {
    assert cur.entries[..cur.pos] == cur.entries;
    assert OwnedUp([]) == multiset{};
  }

  /** ext4_ext_remove_leaf on a leaf right of the path: all of it goes, but for the block it lies in. */
  method RemoveWholeLeaf(t: Tree, from: nat, frees: seq<(nat, nat)>, ghost depth: nat, ghost cut: Truncation)
    returns (exts: seq<Extent>, frees': seq<(nat, nat)>)
    requires t.Leaf? && cut.from == from && Sane(t, depth, cut)
    ensures exts == [] && Freed(frees') == Freed(frees) + DataOf(t.exts)
  {
    hide Freed, DataOf;
    assert t.exts[0].Valid();
    var leafFrom := t.exts[0].firstBlock;
    if leafFrom < from {
      leafFrom := from;
    }
    exts, frees' := RemoveLeaf(t.exts, 0, leafFrom, frees);
    assert t.exts[..0] == [];
    assert exts == [];
    NoDataAtAll();
    assert DataOf(exts) == multiset{};
    assert Freed(frees') == DataOf(exts) + Freed(frees');
    assert Freed(frees) + DataOf(t.exts) == DataOf(t.exts) + Freed(frees);
  }

  lemma NoDataAtAll()
    ensures DataOf([]) == multiset{}
  {
  }

  // ----- before and after the walk -----

  lemma {:induction false} OwnedPlug(up: seq<Level>, t: Tree)
    requires Positioned(up)
    ensures Owned(Plug(up, t)) == OwnedUp(up) + Owned(t)
  {
    hide Owned, Beside;
    if up != [] {
      OwnedPlug(up[1..], t);
      OwnedLevel(up[0], Plug(up[1..], t));
    }
  }

  lemma OwnedLevel(l: Level, below: Tree)
    requires l.HasPos()
    ensures Owned(Node(l.blk, l.max, l.entries[l.pos := Entry(l.Key(), below)])) == Beside(l) + Owned(below)
  {
    hide Owned, OwnedAll;
    var es := l.entries[l.pos := Entry(l.Key(), below)];
    NodeOwns(Node(l.blk, l.max, es));
    OwnedAt(es, l.pos);
    assert es[..l.pos] == l.entries[..l.pos] && es[l.pos + 1..] == l.entries[l.pos + 1..];
  }

  lemma EntriesSane(entries: seq<Entry>, depth: nat, cut: Truncation)
    requires EntriesOk(entries, depth, cut.blockMax) && Sorted(FlatAll(entries)) && AtOrBehind(FlatAll(entries), cut.from)
    ensures AllSane(entries, depth, cut)
  {
    hide EntryOk, Flat, FlatAll;
    forall i | 0 <= i < |entries| ensures Sane(entries[i].child, depth, cut) {
      FlatAllAt(entries, i);
      var a, m, b := FlatAll(entries[..i]), Flat(entries[i].child), FlatAll(entries[i + 1..]);
      SortedParts(a + m, b);
      SortedParts(a, m);
      EntryChild(entries[i], depth, cut.blockMax);
      MiddleBehind(a, m, b, cut.from);
    }
  }

  lemma {:induction false} PathSane(up: seq<Level>, first: nat, topMax: nat, cut: Truncation)
    requires PathOk(up, 0, first, topMax, cut.blockMax) && Positioned(up)
    requires Sorted(RightFlat(up)) && AtOrBehind(RightFlat(up), cut.from)
    ensures RightSane(up, |up| - 1, cut)
  {
    hide EntryOk, FlatAll, AllSane, Sorted, AtOrBehind;
    if up != [] {
      var l := up[0];
      var a, b := RightFlat(up[1..]), FlatAll(l.entries[l.pos + 1..]);
      SortedParts(a, b);
      MiddleBehind([], a, b, cut.from) by { assert [] + a + b == RightFlat(up); }
      PathSane(up[1..], first, cut.blockMax, cut);
      assert EntriesOk(l.entries[l.pos + 1..], |up| - 1, cut.blockMax);
      EntriesSane(l.entries[l.pos + 1..], |up| - 1, cut);
    }
  }

  /** From the path's own leaf up to its parent l: something is left of the leaf. */
  lemma BeginKept(up: seq<Level>, l: Level, leaf: Tree, depth: int, cut: Truncation, total: multiset<nat>, frees: seq<(nat, nat)>)
    requires Positioned(up) && l.HasPos() && RightSane(up + [l], depth, cut) && leaf.Leaf? && leaf.exts != []
    requires Positioned(up + [l]) && OwnedUp(up + [l]) + Owned(leaf) + Freed(frees) == total
    ensures var l' := Level(l.blk, l.max, l.entries[l.pos := Entry(l.Key(), leaf)], l.pos + 1);
            AtWalk(up, l', depth, cut, KeepUp(up + [l], leaf), total, frees)
  {
    hide KeepUp, OwnedUp, RightCount, RightSane, Freed, OwnedAll, CountAll, Sane, Owned, CountNodes;
    var l' := Level(l.blk, l.max, l.entries[l.pos := Entry(l.Key(), leaf)], l.pos + 1);
    KeepUpSnoc(up, l, leaf);
    RightSaneSnoc(up, l, depth, cut);
    OwnedAt(l'.entries, l.pos);
    assert l'.entries[..l.pos] == l.entries[..l.pos] && l'.entries[l.pos + 1..] == l.entries[l.pos + 1..];
    assert l'.entries[..l'.pos] == l.entries[..l.pos] + [Entry(l.Key(), leaf)];
  }

  /** The same when nothing is left of the leaf, so that its parent has lost the entry. */
  lemma BeginEmpty(up: seq<Level>, up': seq<Level>, l: Level, l': Level, leaf: Tree, depth: int, cut: Truncation, total: multiset<nat>,
                   frees: seq<(nat, nat)>, frees': seq<(nat, nat)>)
    requires Positioned(up) && l.HasPos() && RightSane(up + [l], depth, cut) && leaf.Leaf? && leaf.exts == []
    requires Positioned(up + [l]) && OwnedUp(up + [l]) + Owned(leaf) + Freed(frees) == total
    requires Positioned(up') && |up'| == |up| && OwnedUp(up') == OwnedUp(up) && (RightSane(up, depth, cut) ==> RightSane(up', depth, cut))
    requires l' == l.(entries := l.entries[..l.pos] + l.entries[l.pos + 1..])
    requires KeepUp(up', KeptNode(l')) == KeepUp(up, KeptNode(l)) && Freed(frees') == Freed(frees) + multiset{leaf.blk}
    ensures AtWalk(up', l', depth, cut, KeepUp(up + [l], leaf), total, frees')
  {
    hide KeepUp, OwnedUp, RightCount, RightSane, Freed, OwnedAll, CountAll, Sane, Owned, CountNodes;
    KeepUpSnoc(up, l, leaf);
    RightSaneSnoc(up, l, depth, cut);
    OwnedConcat(l.entries[..l.pos], l.entries[l.pos + 1..]);
    NodeOwns(leaf);
    NoDataAtAll();
    assert l.entries[..l.pos] + [] == l.entries[..l.pos];
    assert l'.entries[l'.pos..] == l.entries[l.pos + 1..];
  }

  ghost function MapBelow(m: map<nat, Mapping>, from: nat): map<nat, Mapping> { map b | b in m && b < from :: m[b] }

  /** Without everything from block from on, which e maps, the map is cut off there. */
  lemma CutMap(a: seq<Extent>, e: Extent, b: seq<Extent>, from: nat)
    requires Sorted(a + [e] + b) && e.Covers(from)
    ensures MapOf(a + Front(e, from)) == MapBelow(MapOf(a + [e] + b), from)
  {
    hide MapOf, ExtentMap, Shortened;
    SortedMiddle(a, e, b);
    MapOfMiddle(a, e, b);
    SidesOf(a, e, b, from);
    if e.firstBlock < from {
      ShortenedMap(e, from);
      MapOfConcat(a, [Shortened(e, from)]);
      MapOfOne(Shortened(e, from));
    } else {
      assert a + [] == a;
      KeysFrom(e, from);
    }
  }

  lemma KeysFrom(e: Extent, from: nat)
    requires from <= e.firstBlock
    ensures forall k :: k in ExtentMap(e) ==> from <= k
  {
  }

  lemma SidesOf(a: seq<Extent>, e: Extent, b: seq<Extent>, from: nat)
    requires Sorted(a + [e] + b) && e.Covers(from)
    ensures (forall k :: k in MapOf(a) ==> k < from && k !in ExtentMap(e)) && (forall k :: k in MapOf(b) ==> from <= k)
  {
    hide MapOf;
    SortedMiddle(a, e, b);
    forall k | k in MapOf(a) ensures k < from && k !in ExtentMap(e) {
      MapOfCovers(a, k);
    }
    forall k | k in MapOf(b) ensures from <= k {
      MapOfCovers(b, k);
    }
  }

  /** The tree after the walk is sound, and what it holds is what the path kept. */
  lemma RestOk(up: seq<Level>, leaf: Tree, exts: seq<Extent>, sp: Space)
    requires sp.Valid() && leaf.Leaf? && leaf.max == HoleMax(up, sp) && |leaf.exts| <= leaf.max && exts != [] && Positioned(up)
    requires PathOk(up, 0, exts[0].firstBlock, sp.rootMax, sp.blockMax)
    requires leaf.exts != [] ==> leaf.exts[0].firstBlock == exts[0].firstBlock
    requires Sorted(LeftFlat(up) + leaf.exts)
    ensures var r := KeepUp(up, leaf);
            && Flat(r) == LeftFlat(up) + leaf.exts
            && TreeOk(if Hollow(r) then Leaf(r.blk, sp.rootMax, []) else r, if Hollow(r) then 0 else |up|, sp)
            && (!Hollow(r) ==> Flat(r) != [])
            && (Hollow(r) ==> Flat(r) == [] && Owned(Leaf(r.blk, sp.rootMax, [])) == Owned(r))
  {
    hide PathOk, LeftFlat, EntryOk, Sorted, KeepUp, TreeOk, Hollow, Owned, Flat;
    KeepFlat(up, leaf);
    FlatOfNode(leaf);
    if up == [] {
      KeepNone(leaf);
      RootLeafOk(leaf, sp);
    } else {
      LeafSub(leaf, exts[0].firstBlock, sp.blockMax);
      KeepUpOk(up, leaf, exts[0].firstBlock, sp.rootMax, sp.blockMax);
      RootNodeOk(KeepUp(up, leaf), |up|, sp);
    }
  }

  lemma LeafSub(t: Tree, first: nat, blockMax: nat)
    requires t.Leaf? && t.max == blockMax && |t.exts| <= blockMax && (t.exts != [] ==> t.exts[0].firstBlock == first)
    ensures Hollow(t) || (SubOk(t, 0, blockMax) && First(t) == first)
  {
  }

  lemma RootLeafOk(t: Tree, sp: Space)
    requires sp.Valid() && t.Leaf? && t.max == sp.rootMax && |t.exts| <= t.max && Sorted(Flat(t))
    ensures Hollow(t) <==> Flat(t) == []
    ensures TreeOk(if Hollow(t) then Leaf(t.blk, sp.rootMax, []) else t, 0, sp)
    ensures Hollow(t) ==> Owned(Leaf(t.blk, sp.rootMax, [])) == Owned(t)
  {
    hide Sorted;
  }

  lemma RootNodeOk(t: Tree, depth: nat, sp: Space)
    requires sp.Valid() && depth > 0 && t.Node? && t.max == sp.rootMax && |t.entries| <= t.max && Sorted(Flat(t))
    requires EntriesOk(t.entries, depth - 1, sp.blockMax)
    ensures Hollow(t) <==> Flat(t) == []
    ensures TreeOk(if Hollow(t) then Leaf(t.blk, sp.rootMax, []) else t, if Hollow(t) then 0 else depth, sp)
    ensures Hollow(t) ==> Owned(Leaf(t.blk, sp.rootMax, [])) == Owned(t)
  {
    hide EntryOk;
    NodeFilled(t, depth - 1, sp.blockMax);
    NothingSorted();
    NothingOwned();
    NoDataAtAll();
    NodeOwns(t);
    NodeOwns(Leaf(t.blk, sp.rootMax, []));
  }

  lemma NodeFilled(t: Tree, depth: nat, blockMax: nat)
    requires t.Node? && EntriesOk(t.entries, depth, blockMax)
    ensures !Hollow(t) ==> Flat(t) != []
  {
    hide EntryOk;
    if !Hollow(t) {
      FlatAllFirst(t.entries, depth, blockMax);
    }
  }

  lemma NothingSorted()
    ensures Sorted([])
  {
  }

  lemma LeafCut(left: seq<Extent>, exts: seq<Extent>, right: seq<Extent>, pos: nat, from: nat)
    requires Sorted(left + exts + right) && pos < |exts| && exts[pos].Covers(from)
    ensures Sorted(exts) && exts[pos].Valid() && Sorted(left + (exts[..pos] + Front(exts[pos], from)))
    ensures |exts[..pos] + Front(exts[pos], from)| <= |exts|
    ensures var exts' := exts[..pos] + Front(exts[pos], from); exts' != [] ==> exts'[0].firstBlock == exts[0].firstBlock
    ensures MapOf(left + (exts[..pos] + Front(exts[pos], from))) == MapBelow(MapOf(left + exts + right), from)
    ensures Above(right, from) ==> AtOrBehind(right, from) && Sorted(right)
  {
    hide MapOf, Shortened;
    var a, e, b := left + exts[..pos], exts[pos], exts[pos + 1..] + right;
    CutAround(left, exts, right, pos, e);
    SortedParts(left + exts, right);
    SortedParts(left, exts);
    SortedMiddle(a, e, b);
    CutMap(a, e, b, from);
    assert left + (exts[..pos] + Front(e, from)) == a + Front(e, from);
    if e.firstBlock < from {
      ShortenedOk(e, from);
      SortedJoin(a, [Shortened(e, from)]);
    } else {
      assert a + [] == a;
    }
  }

  /**
   ext4_extent_remove_space with EXT_MAX_BLOCKS as its end.  If from is mapped the map is cut off there, and
   every block that the tree no longer holds is freed once.  If from is not mapped nothing is done.
   */
  method RemoveSpace(path: ExtentPath, root: Tree, ghost depth: nat, from: nat)
    returns (err: Error, root': Tree, frees: seq<(nat, nat)>)
    requires path.sp.Valid() && TreeOk(root, depth, path.sp)
    modifies path
    ensures err == EOK && Owned(root') + Freed(frees) == Owned(root)
    ensures from in MapOf(Flat(root)) ==>
      MapOf(Flat(root')) == MapBelow(MapOf(Flat(root)), from) && TreeOk(root', if Flat(root') == [] then 0 else depth, path.sp)
    ensures from !in MapOf(Flat(root)) ==> root' == root && frees == []
    ensures root'.blk == root.blk && (Flat(root') == [] || Trimmed(root, root'))
    ensures MapOf(Flat(root')) == MapBelow(MapOf(Flat(root)), from) <==>
      from in MapOf(Flat(root)) || forall b :: b in MapOf(Flat(root)) ==> b < from
  {
    hide PathOk, LeftFlat, RightFlat, Sorted, Below, Above, ExtentFound, MapOf, TreeOk, Flat, Plug, Owned, Freed, DataOf, KeepUp,
      OwnedUp, RightSane, AtWalk, AtOrBehind, Shortened, Hollow, Trimmed;
    err, frees := EOK, [];
    TrimmedSelf(root);
    path.FindExtent(root, from, depth);
    TreeWhole(path, root);
    FoundCovers(LeftFlat(path.up), path.exts, RightFlat(path.up), path.pos, from);
    FoundRange(path.exts, path.pos, from);
    NothingFreed(MapOf(Flat(root)), from);
    if path.pos < 0 || !(path.exts[path.pos].firstBlock <= from < path.exts[path.pos].End()) {
      root' := root;
      return;
    }
    LeafCut(LeftFlat(path.up), path.exts, RightFlat(path.up), path.pos, from);
    // The case of a hole inside one extent needs an end before that of the extent.
    assert EXT_MAX_BLOCKS >= path.exts[path.pos].End() - 1;
    var leafFrom := path.exts[0].firstBlock;
    if leafFrom < from {
      leafFrom := from;
    }
    FirstStarts(path.exts, path.pos, from);
    var exts;
    exts, frees := RemoveLeaf(path.exts, path.pos, leafFrom, []);
    FrontTrimmed(Leaf(path.blk, path.max, path.exts), path.pos, leafFrom, exts);
    root', frees := RemoveAround(path.up, Leaf(path.blk, path.max, exts), path.exts, from, frees, path.sp, root);
  }

  lemma NothingFreed(m: map<nat, Mapping>, from: nat)
    ensures Freed([]) == multiset{}
    ensures m == MapBelow(m, from) <==> forall b :: b in m ==> b < from
  {
    if m == MapBelow(m, from) {
      assert forall b :: b in m ==> b in MapBelow(m, from);
    }
  }

  lemma FirstStarts(exts: seq<Extent>, pos: nat, from: nat)
    requires Sorted(exts) && pos < |exts| && exts[pos].Covers(from)
    ensures exts[0].firstBlock <= from
  {
    assert exts[0].Valid();
  }

  /** ext4_extent_remove_space from where the path's leaf has been cut. */
  method RemoveAround(up: seq<Level>, leaf: Tree, ghost exts: seq<Extent>, from: nat, frees: seq<(nat, nat)>, sp: Space, ghost root: Tree)
    returns (root': Tree, frees': seq<(nat, nat)>)
    requires sp.Valid() && leaf.Leaf? && leaf.max == HoleMax(up, sp) && |leaf.exts| <= leaf.max && exts != [] && Positioned(up)
    requires PathOk(up, 0, exts[0].firstBlock, sp.rootMax, sp.blockMax) && Plug(up, Leaf(leaf.blk, leaf.max, exts)) == root
    requires leaf.exts != [] ==> leaf.exts[0].firstBlock == exts[0].firstBlock
    requires Sorted(LeftFlat(up) + leaf.exts) && Sorted(RightFlat(up)) && AtOrBehind(RightFlat(up), from)
    requires DataOf(leaf.exts) + Freed(frees) == DataOf(exts) + Freed([]) && Trimmed(Leaf(leaf.blk, leaf.max, exts), leaf)
    ensures root'.blk == root.blk && (Flat(root') == [] || Trimmed(root, root'))
    ensures Flat(root') == LeftFlat(up) + leaf.exts && TreeOk(root', if Flat(root') == [] then 0 else |up|, sp)
    ensures Owned(root') + Freed(frees') == Owned(root)
  {
    hide PathOk, LeftFlat, RightFlat, Sorted, TreeOk, Flat, Plug, Owned, Freed, DataOf, KeepUp, OwnedUp, RightSane, AtWalk, AtOrBehind,
      KeptNode, Trimmed;
    ghost var cut, total := Truncation(from, sp.blockMax), Owned(root);
    KeepTrimmed(up, Leaf(leaf.blk, leaf.max, exts), leaf);
    TrimmedBlk(root, KeepUp(up, leaf));
    frees' := frees;
    TotalOwned(up, leaf, exts, root, frees);
    RestOk(up, leaf, exts, sp);
    NoneLeft(KeepUp(up, leaf), sp);
    if up == [] {
      root' := leaf;
      KeepNone(leaf);
    } else {
      PathSane(up, exts[0].firstBlock, sp.rootMax, cut);
      var n := |up| - 1;
      var above, l, cur := up[..n], up[n], up[n];
      assert up == above + [l];
      if leaf.exts == [] {
        RightSaneSnoc(above, l, n, cut);
        var above';
        above', cur, frees' := RemoveIdx(above, l, leaf.blk, frees, n, cut);
        BeginEmpty(above, above', l, cur, leaf, n, cut, total, frees, frees');
        above := above';
      } else {
        BeginKept(above, l, leaf, n, cut, total, frees);
        cur := Level(l.blk, l.max, l.entries[l.pos := Entry(l.Key(), leaf)], l.pos + 1);
      }
      root', frees' := RemoveRight(above, cur, frees', from, n, cut, KeepUp(up, leaf), total);
    }
    if (root'.Leaf? && root'.exts == []) || (root'.Node? && root'.entries == []) {
      root' := Leaf(root'.blk, sp.rootMax, []);
    }
  }

  lemma KeepNone(leaf: Tree)
    ensures KeepUp([], leaf) == leaf && OwnedUp([]) == multiset{}
  {
  }

  lemma TotalOwned(up: seq<Level>, leaf: Tree, exts: seq<Extent>, root: Tree, frees: seq<(nat, nat)>)
    requires Positioned(up) && leaf.Leaf? && Plug(up, Leaf(leaf.blk, leaf.max, exts)) == root
    requires DataOf(leaf.exts) + Freed(frees) == DataOf(exts) + Freed([])
    ensures OwnedUp(up) + Owned(leaf) + Freed(frees) == Owned(root)
  {
    hide Owned, OwnedUp, Plug, DataOf, Freed;
    OwnedPlug(up, Leaf(leaf.blk, leaf.max, exts));
    NodeOwns(leaf);
    NodeOwns(Leaf(leaf.blk, leaf.max, exts));
    NothingFreed(map[], 0);
    var a, b := OwnedUp(up), multiset{leaf.blk};
    assert a + (b + DataOf(leaf.exts)) + Freed(frees) == a + (b + (DataOf(leaf.exts) + Freed(frees)));
  }

  lemma FrontTrimmed(leaf: Tree, pos: nat, from: nat, exts: seq<Extent>)
    requires leaf.Leaf? && pos < |leaf.exts| && exts == leaf.exts[..pos] + Front(leaf.exts[pos], from)
    ensures Trimmed(leaf, leaf.(exts := exts))
  {
  }

  lemma TrimmedBlk(t: Tree, t': Tree)
    requires Trimmed(t, t')
    ensures t'.blk == t.blk
  {
  }

  lemma NoneLeft(t: Tree, sp: Space)
    ensures Hollow(t) ==> Flat(t) == [] && Flat(Leaf(t.blk, sp.rootMax, [])) == []
  {
  }
}

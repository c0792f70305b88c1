/** Lemmas for splitting the nodes of a path and for growing the tree. */
module ExtentSplit {
  import opened ExtentTree
  import opened ExtentZipper
  import opened ExtentSearch
  import opened ExtentInsert

  /** What stays of a level's node when it is cut behind the path. */
  function Kept(l: Level): Level
    requires l.pos < |l.entries|
  {
    l.(entries := l.entries[..l.pos + 1])
  }

  /** The new node right of it: the new child first, then the entries cut off. */
  function Moved(l: Level, key: nat, child: nat, blk: nat, max: nat): Level
    requires l.pos < |l.entries|
  {
    Level(blk, max, [Entry(key, Leaf(child, 0, []))] + l.entries[l.pos + 1..], 0)
  }

  /**
   The levels b of a sound path, whose leaf begins at first, have been cut behind the path: kept is what
   stays, right the new nodes, under which everything begins at key.
   */
  ghost predicate Cut(b: seq<Level>, kept: seq<Level>, right: seq<Level>, first: nat, key: nat, blockMax: nat) {
    && Positioned(b) && Positioned(kept) && Positioned(right) && |kept| == |right| == |b|
    && LeftFlat(kept) == LeftFlat(b) && RightFlat(kept) == []
    && LeftFlat(right) == [] && RightFlat(right) == RightFlat(b)
    && PathOk(kept, 0, first, blockMax, blockMax) && TopFirst(kept, first) == TopFirst(b, first)
    && PathOk(right, 0, key, blockMax, blockMax) && TopFirst(right, key) == key
  }

  lemma CutNothing(first: nat, key: nat, blockMax: nat)
    ensures Cut([], [], [], first, key, blockMax)
  {
  }

  lemma KeptLevel(l: Level, depth: nat, first: nat, max: nat, blockMax: nat)
    requires LevelOk(l, depth, first, max, blockMax)
    ensures LevelOk(Kept(l), depth, first, max, blockMax)
    ensures Kept(l).entries[..l.pos] == l.entries[..l.pos] && Kept(l).entries[l.pos + 1..] == []
    ensures Kept(l).entries[0] == l.entries[0]
  {
    hide EntryOk;
  }

  lemma MovedLevel(l: Level, depth: nat, first: nat, key: nat, child: nat, blk: nat, max: nat, blockMax: nat)
    requires LevelOk(l, depth, first, max, blockMax)
    ensures var r := Moved(l, key, child, blk, max);
            && LevelOk(r, depth, key, max, blockMax)
            && r.entries[..0] == [] && r.entries[1..] == l.entries[l.pos + 1..]
  {
    hide EntryOk;
    var r := Moved(l, key, child, blk, max);
    forall i | 0 <= i < |r.entries| && i != 0 ensures EntryOk(r.entries[i], depth, blockMax) {
      assert r.entries[i] == l.entries[l.pos + i];
    }
  }

  /** Reading the definitions one level up. */
  lemma LevelAbove(l: Level, up: seq<Level>, depth: nat, first: nat, topMax: nat, blockMax: nat)
    requires Positioned(up) && l.HasPos()
    ensures Positioned([l] + up)
    ensures LeftFlat([l] + up) == FlatAll(l.entries[..l.pos]) + LeftFlat(up)
    ensures RightFlat([l] + up) == RightFlat(up) + FlatAll(l.entries[l.pos + 1..])
    ensures TopFirst([l] + up, first) == if l.pos == 0 then TopFirst(up, first) else l.entries[0].key
    ensures PathOk([l] + up, depth, first, topMax, blockMax) <==>
      LevelOk(l, depth + |up|, TopFirst(up, first), topMax, blockMax) && PathOk(up, depth, first, blockMax, blockMax)
  {
    hide LevelOk, FlatAll;
    assert ([l] + up)[1..] == up;
  }

  /** One turn of the loop of ext4_ext_split_node. */
  lemma CutMore(l: Level, b: seq<Level>, kept: seq<Level>, right: seq<Level>, first: nat, key: nat, blockMax: nat,
                child: nat, blk: nat)
    requires Cut(b, kept, right, first, key, blockMax) && PathOk([l] + b, 0, first, blockMax, blockMax)
    ensures l.HasPos()
    ensures Cut([l] + b, [Kept(l)] + kept, [Moved(l, key, child, blk, blockMax)] + right, first, key, blockMax)
  {
    hide LevelOk, PathOk, LeftFlat, RightFlat, TopFirst, Positioned;
    HeadPositioned(l, b, first, blockMax);
    var k, r := Kept(l), Moved(l, key, child, blk, blockMax);
    LevelAbove(l, b, 0, first, blockMax, blockMax);
    KeptLevel(l, |b|, TopFirst(b, first), blockMax, blockMax);
    MovedLevel(l, |b|, TopFirst(b, first), key, child, blk, blockMax, blockMax);
    MovedHas(l, key, child, blk, blockMax);
    LevelAbove(k, kept, 0, first, blockMax, blockMax);
    LevelAbove(r, right, 0, key, blockMax, blockMax);
    NoFlat();
  }

  lemma MovedHas(l: Level, key: nat, child: nat, blk: nat, max: nat)
    requires l.HasPos()
    ensures Kept(l).HasPos() && Kept(l).pos == l.pos
    ensures Moved(l, key, child, blk, max).HasPos() && Moved(l, key, child, blk, max).pos == 0
  {
  }

  lemma NoFlat()
    ensures FlatAll([]) == []
  {
  }

  lemma HeadPositioned(l: Level, b: seq<Level>, first: nat, blockMax: nat)
    requires PathOk([l] + b, 0, first, blockMax, blockMax)
    ensures l.HasPos() && Positioned(b) && Positioned([l] + b)
  {
    assert ([l] + b)[0] == l && ([l] + b)[1..] == b;
  }

  /** The subtree that cut or new levels make with a leaf under them. */
  lemma CutSubtree(up: seq<Level>, leaf: Tree, first: nat, blockMax: nat)
    requires leaf.Leaf? && leaf.max == blockMax && 1 <= |leaf.exts| <= blockMax && First(leaf) == first
    requires PathOk(up, 0, first, blockMax, blockMax)
    ensures Positioned(up) && EntryOk(Entry(TopFirst(up, first), Plug(up, leaf)), |up|, blockMax)
    ensures Flat(Plug(up, leaf)) == LeftFlat(up) + leaf.exts + RightFlat(up)
  {
    if up != [] {
      PlugOk(up, leaf, 0, blockMax, blockMax);
    }
    FlatPlug(up, leaf);
  }

  /** A level with a new entry behind the one the path goes through. */
  function WithRight(l: Level, key: nat, child: Tree): Level
    requires l.pos < |l.entries|
  {
    l.(entries := l.entries[..l.pos + 1] + [Entry(key, child)] + l.entries[l.pos + 1..])
  }

  /** A level whose path has moved on to a new entry; the old one has its child below it again. */
  function MovedOn(l: Level, child: Tree, key: nat, blk: nat): Level
    requires l.pos < |l.entries|
  {
    l.(entries := l.entries[..l.pos] + [Entry(l.Key(), child), Entry(key, Leaf(blk, 0, []))] + l.entries[l.pos + 1..],
       pos := l.pos + 1)
  }

  lemma WithRightOk(l: Level, depth: nat, first: nat, max: nat, blockMax: nat, key: nat, child: Tree)
    requires LevelOk(l, depth, first, max, blockMax) && |l.entries| < max && EntryOk(Entry(key, child), depth, blockMax)
    ensures var r := WithRight(l, key, child);
            && LevelOk(r, depth, first, max, blockMax)
            && r.entries[..l.pos] == l.entries[..l.pos] && r.entries[0].key == l.entries[0].key
            && r.entries[l.pos + 1..] == [Entry(key, child)] + l.entries[l.pos + 1..]
  {
    hide EntryOk;
    var r := WithRight(l, key, child);
    forall i | 0 <= i < |r.entries| && i != r.pos ensures EntryOk(r.entries[i], depth, blockMax) {
      assert i > l.pos + 1 ==> r.entries[i] == l.entries[i - 1];
    }
  }

  lemma MovedOnOk(l: Level, depth: nat, max: nat, blockMax: nat, child: Tree, key: nat, blk: nat)
    requires l.HasPos() && LevelOk(l, depth, l.Key(), max, blockMax) && |l.entries| < max
    requires EntryOk(Entry(l.Key(), child), depth, blockMax)
    ensures var r := MovedOn(l, child, key, blk);
            && LevelOk(r, depth, key, max, blockMax) && r.pos != 0
            && r.entries[..r.pos] == l.entries[..l.pos] + [Entry(l.Key(), child)] && r.entries[0].key == l.entries[0].key
            && r.entries[r.pos + 1..] == l.entries[l.pos + 1..]
  {
    hide EntryOk;
    var r := MovedOn(l, child, key, blk);
    forall i | 0 <= i < |r.entries| && i != r.pos ensures EntryOk(r.entries[i], depth, blockMax) {
      assert i > r.pos ==> r.entries[i] == l.entries[i - 1];
    }
  }

  lemma FlatSnoc(entries: seq<Entry>, e: Entry)
    ensures FlatAll(entries + [e]) == FlatAll(entries) + Flat(e.child)
    ensures FlatAll([e] + entries) == Flat(e.child) + FlatAll(entries)
  {
    FlatAllConcat(entries, [e]);
    FlatAllConcat([e], entries);
    FlatAllOne(e);
  }

  lemma SplitPath(a: seq<Level>, l: Level, b: seq<Level>, first: nat, sp: Space)
    requires PathOk(a + ([l] + b), 0, first, sp.rootMax, sp.blockMax)
    ensures Positioned(a) && Positioned(b) && l.HasPos() && Positioned([l] + b)
    ensures var max := if a == [] then sp.rootMax else sp.blockMax;
            && PathOk(a, 1 + |b|, TopFirst([l] + b, first), sp.rootMax, sp.blockMax)
            && PathOk([l] + b, 0, first, max, sp.blockMax) && LevelOk(l, |b|, TopFirst(b, first), max, sp.blockMax)
            && PathOk(b, 0, first, sp.blockMax, sp.blockMax)
  {
    hide LevelOk, TopFirst, PathOk;
    ConcatPositioned(a, [l] + b, first, sp);
    PathConcat(a, [l] + b, 0, first, sp.rootMax, sp.blockMax);
    assert ([l] + b)[0] == l && ([l] + b)[1..] == b;
    assert l == ([l] + b)[0];
    LevelAbove(l, b, 0, first, if a == [] then sp.rootMax else sp.blockMax, sp.blockMax);
  }

  lemma ConcatPositioned(a: seq<Level>, b: seq<Level>, first: nat, sp: Space)
    requires PathOk(a + b, 0, first, sp.rootMax, sp.blockMax)
    ensures Positioned(a) && Positioned(b)
  {
    assert forall i :: 0 <= i < |a| ==> a[i] == (a + b)[i];
    assert forall i :: 0 <= i < |b| ==> b[i] == (a + b)[|a| + i];
  }

  /** The path stays left of the cut: the new nodes hang beside it. */
  lemma SplitLeft(a: seq<Level>, l: Level, b: seq<Level>, kept: seq<Level>, right: seq<Level>, first: nat, key: nat, sp: Space, leaf: Tree)
    requires PathOk(a + ([l] + b), 0, first, sp.rootMax, sp.blockMax) && Cut(b, kept, right, first, key, sp.blockMax)
    requires l.HasPos() && |l.entries| < l.max
    requires leaf.Leaf? && leaf.max == sp.blockMax && 1 <= |leaf.exts| <= sp.blockMax && First(leaf) == key
    ensures Positioned(a + ([l] + b)) && Positioned(right)
    ensures var up := a + ([WithRight(l, key, Plug(right, leaf))] + kept);
            && PathOk(up, 0, first, sp.rootMax, sp.blockMax) && Positioned(up)
            && LeftFlat(up) == LeftFlat(a + ([l] + b)) && RightFlat(up) == leaf.exts + RightFlat(a + ([l] + b))
  {
    hide LevelOk, PathOk, LeftFlat, RightFlat, FlatAll, Flat, EntryOk, Plug, TopFirst, Positioned;
    SplitPath(a, l, b, first, sp);
    var max := if a == [] then sp.rootMax else sp.blockMax;
    var r := Plug(right, leaf);
    CutSubtree(right, leaf, key, sp.blockMax);
    LevelKey(l, |b|, TopFirst(b, first), max, sp.blockMax);
    WithRightOk(l, |b|, TopFirst(b, first), max, sp.blockMax, key, r);
    var l' := WithRight(l, key, r);
    LevelAbove(l, b, 0, first, max, sp.blockMax);
    LevelAbove(l', kept, 0, first, max, sp.blockMax);
    FlatSnoc(l.entries[l.pos + 1..], Entry(key, r));
    PathConcat(a, [l'] + kept, 0, first, sp.rootMax, sp.blockMax);
    FlatConcat(a, [l] + b);
    FlatConcat(a, [l'] + kept);
  }

  /** The path moves to the right of the cut, where the new leaf is still empty. */
  lemma SplitRight(a: seq<Level>, l: Level, b: seq<Level>, kept: seq<Level>, right: seq<Level>, first: nat, key: nat, sp: Space,
                   leaf: Tree, blk: nat)
    requires PathOk(a + ([l] + b), 0, first, sp.rootMax, sp.blockMax) && Cut(b, kept, right, first, key, sp.blockMax)
    requires l.HasPos() && |l.entries| < l.max
    requires leaf.Leaf? && leaf.max == sp.blockMax && 1 <= |leaf.exts| <= sp.blockMax && First(leaf) == first
    ensures Positioned(a + ([l] + b)) && Positioned(kept)
    ensures var up := a + ([MovedOn(l, Plug(kept, leaf), key, blk)] + right);
            && PathOk(up, 0, key, sp.rootMax, sp.blockMax) && Positioned(up)
            && LeftFlat(up) == LeftFlat(a + ([l] + b)) + leaf.exts && RightFlat(up) == RightFlat(a + ([l] + b))
  {
    hide LevelOk, PathOk, LeftFlat, RightFlat, FlatAll, Flat, EntryOk, Plug, TopFirst, Positioned;
    SplitPath(a, l, b, first, sp);
    var max := if a == [] then sp.rootMax else sp.blockMax;
    var t := Plug(kept, leaf);
    CutSubtree(kept, leaf, first, sp.blockMax);
    LevelKey(l, |b|, TopFirst(b, first), max, sp.blockMax);
    MovedOnOk(l, |b|, max, sp.blockMax, t, key, blk);
    var l' := MovedOn(l, t, key, blk);
    LevelAbove(l, b, 0, first, max, sp.blockMax);
    LevelAbove(l', right, 0, key, max, sp.blockMax);
    FlatSnoc(l.entries[..l.pos], Entry(l.Key(), t));
    PathConcat(a, [l'] + right, 0, key, sp.rootMax, sp.blockMax);
    FlatConcat(a, [l] + b);
    FlatConcat(a, [l'] + right);
  }

  lemma LevelKey(l: Level, depth: nat, first: nat, max: nat, blockMax: nat)
    requires LevelOk(l, depth, first, max, blockMax)
    ensures l.HasPos() && l.Key() == first && l.max == max
  {
  }

  /** The key at which ext4_ext_split_node cuts lies behind the key of the level that gets the new entry. */
  lemma KeyBehind(a: seq<Level>, l: Level, b: seq<Level>, first: nat, key: nat, sp: Space)
    requires PathOk(a + ([l] + b), 0, first, sp.rootMax, sp.blockMax) && first < key
    requires Positioned(b) && forall i :: 0 <= i < |LeftFlat(b)| ==> LeftFlat(b)[i].firstBlock < first
    ensures l.HasPos() && l.Key() < key
  {
    hide PathOk, LeftFlat, LevelOk;
    SplitPath(a, l, b, first, sp);
    LevelKey(l, |b|, TopFirst(b, first), if a == [] then sp.rootMax else sp.blockMax, sp.blockMax);
    TopFirstLeft(b, 0, first, sp.blockMax);
  }

  /** The first block under a path is that of its leftmost extent. */
  lemma {:induction false} TopFirstLeft(b: seq<Level>, depth: nat, first: nat, blockMax: nat)
    requires PathOk(b, depth, first, blockMax, blockMax)
    requires Positioned(b) && forall i :: 0 <= i < |LeftFlat(b)| ==> LeftFlat(b)[i].firstBlock < first
    ensures TopFirst(b, first) <= first
  {
    if b != [] {
      var l := b[0];
      assert LeftFlat(b) == FlatAll(l.entries[..l.pos]) + LeftFlat(b[1..]);
      if l.pos == 0 {
        assert FlatAll(l.entries[..0]) == [];
        assert LeftFlat(b) == LeftFlat(b[1..]);
        TopFirstLeft(b[1..], depth, first, blockMax);
      } else {
        var es := l.entries[..l.pos];
        assert EntriesOk(es, depth + |b| - 1, blockMax);
        FlatAllFirst(es, depth + |b| - 1, blockMax);
        assert LeftFlat(b)[0] == FlatAll(es)[0];
      }
    }
  }

  /** Everything left of a leaf's first extent begins before it. */
  lemma LeftBegins(a: seq<Level>, b: seq<Level>, exts: seq<Extent>, right: seq<Extent>)
    requires Positioned(a) && Positioned(b) && exts != []
    requires Sorted(LeftFlat(a + b) + exts + right)
    ensures forall i :: 0 <= i < |LeftFlat(b)| ==> LeftFlat(b)[i].firstBlock < exts[0].firstBlock
  {
    hide LeftFlat;
    FlatConcat(a, b);
    var whole := LeftFlat(a + b) + exts + right;
    var n := |LeftFlat(a)|;
    forall i | 0 <= i < |LeftFlat(b)| ensures LeftFlat(b)[i].firstBlock < exts[0].firstBlock {
      assert whole[n + i] == LeftFlat(b)[i] && whole[|LeftFlat(a + b)|] == exts[0];
    }
  }

  // ----- ext4_ext_grow_indepth -----

  /** The tree with its old root moved to a block of its own, under a new root that has it as its only child. */
  function Grown(t: Tree, blk: nat, sp: Space): Tree
    requires if t.Leaf? then t.exts != [] else t.entries != []
  {
    Node(t.blk, sp.rootMax, [Entry(First(t), t.(blk := blk, max := sp.blockMax))])
  }

  lemma GrownOk(t: Tree, depth: nat, sp: Space, blk: nat)
    requires sp.Valid() && TreeOk(t, depth, sp) && (if t.Leaf? then t.exts != [] else t.entries != [])
    ensures TreeOk(Grown(t, blk, sp), depth + 1, sp) && Flat(Grown(t, blk, sp)) == Flat(t)
  {
    hide EntryOk;
    var r := t.(blk := blk, max := sp.blockMax);
    MovedRoot(t, blk, sp);
    assert SubOk(r, depth, sp.blockMax);
    RootEntry(First(t), r, depth, sp.blockMax);
  }

  lemma MovedRoot(t: Tree, blk: nat, sp: Space)
    ensures Flat(t.(blk := blk, max := sp.blockMax)) == Flat(t)
  {
  }

  lemma RootEntry(key: nat, child: Tree, depth: nat, blockMax: nat)
    requires SubOk(child, depth, blockMax) && key == First(child)
    ensures EntryOk(Entry(key, child), depth, blockMax) && FlatAll([Entry(key, child)]) == Flat(child)
  {
    FlatAllOne(Entry(key, child));
  }

  /** The same path in the grown tree. */
  function GrownUp(up: seq<Level>, t: Tree, blk: nat, sp: Space): seq<Level>
    requires if t.Leaf? then t.exts != [] else t.entries != []
  {
    [Level(t.blk, sp.rootMax, Grown(t, blk, sp).entries, 0)]
    + if up == [] then [] else [up[0].(blk := blk, max := sp.blockMax)] + up[1..]
  }

  lemma GrownPath(up: seq<Level>, leaf: Tree, blk: nat, sp: Space, block: nat)
    requires Positioned(up) && leaf.Leaf? && leaf.exts != [] && Searched(up, block)
    ensures var t := Plug(up, leaf);
            && (if t.Leaf? then t.exts != [] else t.entries != [])
            && Positioned(GrownUp(up, t, blk, sp)) && Searched(GrownUp(up, t, blk, sp), block)
            && LeftFlat(GrownUp(up, t, blk, sp)) == LeftFlat(up)
            && Plug(GrownUp(up, t, blk, sp), if up == [] then Leaf(blk, sp.blockMax, leaf.exts) else leaf) == Grown(t, blk, sp)
  {
    var t := Plug(up, leaf);
    var g, leaf' := GrownUp(up, t, blk, sp), if up == [] then Leaf(blk, sp.blockMax, leaf.exts) else leaf;
    var below := g[1..];
    if up != [] {
      assert below[1..] == up[1..];
      assert Chosen(up[0], block) && Chosen(below[0], block);
    }
    assert Plug(below, leaf') == t.(blk := blk, max := sp.blockMax);
    assert g[0].entries[..0] == [];
    assert Chosen(g[0], block);
    forall i | 0 <= i < |g| ensures Chosen(g[i], block) && g[i].HasPos() {
      assert i > 1 ==> g[i] == up[i - 1] && Chosen(up[i - 1], block);
    }
  }
}

/** ext4_find_extent: the walk from the root to the leaf where a logical block belongs. */
module ExtentSearch {
  import opened ExtentTree
  import opened ExtentZipper

  ghost predicate Below(exts: seq<Extent>, b: nat) { forall i :: 0 <= i < |exts| ==> exts[i].End() <= b }

  ghost predicate Above(exts: seq<Extent>, b: nat) { forall i :: 0 <= i < |exts| ==> b < exts[i].firstBlock }

  /** Entry pos is the last one whose key does not exceed block, or the first one. */
  ghost predicate KeyFound(entries: seq<Entry>, pos: nat, block: nat) {
    && pos < |entries|
    && (pos > 0 ==> entries[pos].key <= block)
    && (pos + 1 < |entries| ==> block < entries[pos + 1].key)
  }

  /** The search would choose this level's entry for block. */
  ghost predicate Chosen(l: Level, block: nat) {
    KeyFound(l.entries, l.pos, block) && forall i, j :: 0 <= i < j < |l.entries| ==> l.entries[i].key < l.entries[j].key
  }

  /** The path is the one that the search for block takes. */
  ghost predicate Searched(up: seq<Level>, block: nat) { forall i :: 0 <= i < |up| ==> Chosen(up[i], block) }

  ghost predicate ExtentFound(exts: seq<Extent>, pos: int, block: nat) {
    if exts == [] then pos == -1
    else
      && 0 <= pos < |exts|
      && (pos > 0 ==> exts[pos].firstBlock <= block)
      && (pos + 1 < |exts| ==> block < exts[pos + 1].firstBlock)
  }

  lemma OneEntry(es: seq<Entry>, p: nat, es': seq<Entry>, p': nat, block: nat)
    requires |es| == |es'| && forall i :: 0 <= i < |es| ==> es[i].key == es'[i].key
    requires forall i, j :: 0 <= i < j < |es| ==> es[i].key < es[j].key
    requires KeyFound(es, p, block) && KeyFound(es', p', block)
    ensures p == p'
  {
    var q := if p < p' then p + 1 else p' + 1;
    assert q < |es| ==> es[q].key == es'[q].key;
  }

  /** The search takes one path only. */
  lemma {:induction false} OnePath(up: seq<Level>, t: Tree, up': seq<Level>, t': Tree, block: nat)
    requires Positioned(up) && Positioned(up') && |up| == |up'| && Plug(up, t) == Plug(up', t')
    requires Searched(up, block) && Searched(up', block)
    ensures t == t' && LeftFlat(up) == LeftFlat(up')
    ensures forall i :: 0 <= i < |up| ==>
      up[i].pos == up'[i].pos && up[i].max == up'[i].max && |up[i].entries| == |up'[i].entries|
    ensures forall i :: 0 <= i < |up| ==> up[i].Behind() == up'[i].Behind()
  {
    if up != [] {
      var l, l' := up[0], up'[0];
      var es, es' := Plug(up, t).entries, Plug(up', t').entries;
      forall i | 0 <= i < |es| ensures l.entries[i].key == l'.entries[i].key {
        assert es[i].key == l.entries[i].key && es'[i].key == l'.entries[i].key;
      }
      assert Chosen(l, block) && Chosen(l', block);
      OneEntry(l.entries, l.pos, l'.entries, l'.pos, block);
      assert l.entries[..l.pos] == es[..l.pos] == l'.entries[..l.pos];
      assert l.entries[l.pos + 1..] == es[l.pos + 1..] == l'.entries[l.pos + 1..];
      assert es[l.pos].child == Plug(up[1..], t) && es'[l.pos].child == Plug(up'[1..], t');
      OnePath(up[1..], t, up'[1..], t', block);
      forall i | 0 <= i < |up|
        ensures up[i].pos == up'[i].pos && up[i].max == up'[i].max && |up[i].entries| == |up'[i].entries|
        ensures up[i].Behind() == up'[i].Behind()
      {
        if i > 0 {
          assert up[i] == up[1..][i - 1] && up'[i] == up'[1..][i - 1];
        }
      }
    }
  }

  ghost predicate NodeOk(t: Tree, depth: nat, max: nat, blockMax: nat) {
    && depth > 0 && t.Node? && t.max == max && 1 <= |t.entries| <= max
    && forall i {:trigger t.entries[i]} :: 0 <= i < |t.entries| ==> EntryOk(t.entries[i], depth - 1, blockMax)
  }

  ghost predicate EntriesOk(entries: seq<Entry>, depth: nat, blockMax: nat) {
    forall i {:trigger entries[i]} :: 0 <= i < |entries| ==> EntryOk(entries[i], depth, blockMax)
  }

  /** The extents under sound entries begin with the first entry's key. */
  lemma FlatAllFirst(entries: seq<Entry>, depth: nat, blockMax: nat)
    requires entries != [] && EntriesOk(entries, depth, blockMax)
    ensures FlatAll(entries) != [] && FlatAll(entries)[0].firstBlock == entries[0].key
  {
    SubFirst(entries[0].child, depth, blockMax);
    assert FlatAll(entries) == FlatEntry(entries[0]) + FlatAll(entries[1..]);
  }

  lemma SortedFrom(exts: seq<Extent>)
    requires Sorted(exts) && exts != []
    ensures forall i :: 0 <= i < |exts| ==> exts[0].firstBlock <= exts[i].firstBlock
  {
  }

  /** Everything left of entry pos ends before its key, everything from there on starts at it or later. */
  lemma SplitAtKey(entries: seq<Entry>, depth: nat, blockMax: nat, pos: nat)
    requires EntriesOk(entries, depth, blockMax) && Sorted(FlatAll(entries)) && pos < |entries|
    ensures Below(FlatAll(entries[..pos]), entries[pos].key)
    ensures FlatAll(entries) == FlatAll(entries[..pos]) + FlatAll(entries[pos..])
    ensures forall i :: 0 <= i < |FlatAll(entries[pos..])| ==> entries[pos].key <= FlatAll(entries[pos..])[i].firstBlock
  {
    hide FlatAll;
    var l, r := entries[..pos], entries[pos..];
    assert entries == l + r;
    FlatAllConcat(l, r);
    SortedParts(FlatAll(l), FlatAll(r));
    FlatAllFirst(r, depth, blockMax);
    SortedFrom(FlatAll(r));
  }

  lemma KeysAscend(entries: seq<Entry>, depth: nat, blockMax: nat, i: nat, j: nat)
    requires EntriesOk(entries, depth, blockMax) && Sorted(FlatAll(entries)) && i < j < |entries|
    ensures entries[i].key < entries[j].key
  {
    hide FlatAll, EntryOk;
    SplitAtKey(entries, depth, blockMax, j);
    var l := entries[..j];
    SortedParts(FlatAll(l), FlatAll(entries[j..]));
    SplitAtKey(l, depth, blockMax, i);
    FlatAllFirst(l[i..], depth, blockMax);
    SortedParts(FlatAll(l[..i]), FlatAll(l[i..]));
    assert FlatAll(l)[|FlatAll(l[..i])|] == FlatAll(l[i..])[0];
  }

  /** Choosing the entry by its key leaves nothing on either side that belongs to the block. */
  lemma LevelSearch(entries: seq<Entry>, depth: nat, blockMax: nat, pos: nat, block: nat)
    requires EntriesOk(entries, depth, blockMax) && Sorted(FlatAll(entries)) && KeyFound(entries, pos, block)
    ensures Below(FlatAll(entries[..pos]), block) && Above(FlatAll(entries[pos + 1..]), block)
  {
    hide EntryOk;
    if pos > 0 {
      SplitAtKey(entries, depth, blockMax, pos);
    } else {
      assert entries[..pos] == [];
    }
    if pos + 1 < |entries| {
      SplitAtKey(entries, depth, blockMax, pos + 1);
    } else {
      assert entries[pos + 1..] == [];
    }
  }

  /** ext4_ext_binsearch_idx */
  method BinsearchIdx(entries: seq<Entry>, block: nat) returns (pos: nat)
    requires entries != [] && forall i, j :: 0 <= i < j < |entries| ==> entries[i].key < entries[j].key
    ensures KeyFound(entries, pos, block)
  {
    var l, r := 1, |entries| - 1;
    while l <= r
      invariant 1 <= l <= r + 1 <= |entries|
      invariant forall i :: 1 <= i < l ==> entries[i].key <= block
      invariant forall i :: r < i < |entries| ==> block < entries[i].key
    {
      var m := l + (r - l) / 2;
      if block < entries[m].key {
        r := m - 1;
      } else {
        l := m + 1;
      }
    }
    pos := l - 1;
  }

  /** ext4_ext_binsearch; -1 stands for the null extent of an empty leaf */
  method Binsearch(exts: seq<Extent>, block: nat) returns (pos: int)
    requires Sorted(exts)
    ensures ExtentFound(exts, pos, block)
  {
    if exts == [] {
      return -1;
    }
    var l, r := 1, |exts| - 1;
    while l <= r
      invariant 1 <= l <= r + 1 <= |exts|
      invariant forall i :: 1 <= i < l ==> exts[i].firstBlock <= block
      invariant forall i :: r < i < |exts| ==> block < exts[i].firstBlock
    {
      var m := l + (r - l) / 2;
      if block < exts[m].firstBlock {
        r := m - 1;
      } else {
        l := m + 1;
      }
    }
    pos := l - 1;
  }

  ghost function HoleMax(up: seq<Level>, sp: Space): nat { if up == [] then sp.rootMax else sp.blockMax }

  lemma OneLevel(l: Level, t: Tree)
    requires l.HasPos()
    ensures Positioned([l]) && Plug([l], t) == Node(l.blk, l.max, l.entries[l.pos := Entry(l.Key(), t)])
    ensures LeftFlat([l]) == FlatAll(l.entries[..l.pos]) && RightFlat([l]) == FlatAll(l.entries[l.pos + 1..])
    ensures forall first: nat :: TopFirst([l], first) == if l.pos == 0 then first else l.entries[0].key
    ensures forall depth: nat, first: nat, max: nat, blockMax: nat ::
      PathOk([l], depth, first, max, blockMax) <==> LevelOk(l, depth, first, max, blockMax)
  {
    assert [l][1..] == [];
  }

  lemma EntryChild(e: Entry, depth: nat, blockMax: nat)
    requires EntryOk(e, depth, blockMax)
    ensures SubOk(e.child, depth, blockMax) && e.key == First(e.child)
  {
  }

  /** One step down: the chosen entry's child becomes the end of the path, and the tree stays the same. */
  lemma Descend(up: seq<Level>, t: Tree, pos: nat)
    requires Positioned(up) && t.Node? && pos < |t.entries|
    ensures var up', child := up + [Level(t.blk, t.max, t.entries, pos)], t.entries[pos].child;
            && Positioned(up') && Plug(up', child) == Plug(up, t)
            && LeftFlat(up') == LeftFlat(up) + FlatAll(t.entries[..pos])
            && RightFlat(up') == FlatAll(t.entries[pos + 1..]) + RightFlat(up)
  {
    var l, child := Level(t.blk, t.max, t.entries, pos), t.entries[pos].child;
    OneLevel(l, child);
    assert t.entries[pos := Entry(l.Key(), child)] == t.entries;
    PlugConcat(up, [l], child);
    FlatConcat(up, [l]);
  }

  lemma DescendOk(up: seq<Level>, t: Tree, depth: nat, sp: Space, pos: nat)
    requires Positioned(up) && NodeOk(t, depth, HoleMax(up, sp), sp.blockMax) && pos < |t.entries|
    requires PathOk(up, depth, First(t), sp.rootMax, sp.blockMax)
    ensures SubOk(t.entries[pos].child, depth - 1, sp.blockMax)
    ensures PathOk(up + [Level(t.blk, t.max, t.entries, pos)], depth - 1, First(t.entries[pos].child), sp.rootMax, sp.blockMax)
  {
    hide SubOk, EntryOk, PathOk;
    var l, child := Level(t.blk, t.max, t.entries, pos), t.entries[pos].child;
    OneLevel(l, child);
    EntryChild(t.entries[pos], depth - 1, sp.blockMax);
    PathConcat(up, [l], depth - 1, First(child), sp.rootMax, sp.blockMax);
  }
}

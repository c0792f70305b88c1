/**
 The path of a lookup, as the library keeps it in an array: one level per index node from
 the root down, each with the entry it goes through, and the leaf it ends in.  Changing a
 level changes the tree; Plug puts the levels back together.
 */
module ExtentZipper {
  import opened ExtentTree

  /** An index node on the path; the child of entry pos lies on the path itself and is not read here. */
  datatype Level = Level(blk: nat, max: nat, entries: seq<Entry>, pos: nat) {
    ghost predicate HasPos() { pos < |entries| }

    /** The key of the entry that the path goes through. */
    function Key(): nat requires pos < |entries| { entries[pos].key }

    /** The entries right of the path. */
    function Behind(): seq<Entry> { if pos < |entries| then entries[pos + 1..] else [] }

    function WithKey(key: nat): Level
      requires pos < |entries|
    {
      this.(entries := entries[pos := Entry(key, entries[pos].child)])
    }
  }

  ghost predicate Positioned(up: seq<Level>) { forall i :: 0 <= i < |up| ==> up[i].HasPos() }

  /** The tree that the levels make with t at their end. */
  function Plug(up: seq<Level>, t: Tree): Tree
    requires Positioned(up)
  {
    if up == [] then t
    else
      var l := up[0];
      assert Positioned(up[1..]);
      Node(l.blk, l.max, l.entries[l.pos := Entry(l.Key(), Plug(up[1..], t))])
  }

  /** The extents left of the path, and right of it. */
  ghost function LeftFlat(up: seq<Level>): seq<Extent>
    requires Positioned(up)
  {
    if up == [] then [] else FlatAll(up[0].entries[..up[0].pos]) + LeftFlat(up[1..])
  }

  ghost function RightFlat(up: seq<Level>): seq<Extent>
    requires Positioned(up)
  {
    if up == [] then [] else RightFlat(up[1..]) + FlatAll(up[0].entries[up[0].pos + 1..])
  }

  /** The first block under the topmost level, when the block under the path's end is first. */
  ghost function TopFirst(up: seq<Level>, first: nat): nat
    requires Positioned(up)
  {
    if up == [] then first
    else if up[0].pos == 0 then TopFirst(up[1..], first)
    else up[0].entries[0].key
  }

  /** A level of a sound tree, given the depth of its children and the first block under the path. */
  ghost predicate LevelOk(l: Level, depth: nat, first: nat, max: nat, blockMax: nat) {
    && l.max == max && l.HasPos() && |l.entries| <= max && l.Key() == first
    && forall i {:trigger l.entries[i]} :: 0 <= i < |l.entries| && i != l.pos ==> EntryOk(l.entries[i], depth, blockMax)
  }

  /** All levels are sound, above an end of the given depth whose first block is first. */
  ghost predicate PathOk(up: seq<Level>, depth: nat, first: nat, topMax: nat, blockMax: nat) {
    && Positioned(up)
    && (up != [] ==>
          && LevelOk(up[0], depth + |up| - 1, TopFirst(up[1..], first), topMax, blockMax)
          && PathOk(up[1..], depth, first, blockMax, blockMax))
  }

  // ----- plugging -----

  lemma PathPositioned(up: seq<Level>, depth: nat, first: nat, topMax: nat, blockMax: nat)
    requires PathOk(up, depth, first, topMax, blockMax)
    ensures Positioned(up)
  {
  }

  lemma FlatNode(blk: nat, max: nat, entries: seq<Entry>, pos: nat, e: Entry)
    requires pos < |entries|
    ensures Flat(Node(blk, max, entries[pos := e]))
         == FlatAll(entries[..pos]) + Flat(e.child) + FlatAll(entries[pos + 1..])
  {
    var es := entries[pos := e];
    FlatAllAt(es, pos);
    assert es[..pos] == entries[..pos] && es[pos + 1..] == entries[pos + 1..];
  }

  lemma {:induction false} FlatPlug(up: seq<Level>, t: Tree)
    requires Positioned(up)
    ensures Flat(Plug(up, t)) == LeftFlat(up) + Flat(t) + RightFlat(up)
  {
    hide Flat, FlatAll;
    if up != [] {
      var l := up[0];
      FlatPlug(up[1..], t);
      FlatNode(l.blk, l.max, l.entries, l.pos, Entry(l.Key(), Plug(up[1..], t)));
    }
  }

  lemma {:induction false} PlugConcat(a: seq<Level>, b: seq<Level>, t: Tree)
    requires Positioned(a) && Positioned(b)
    ensures Positioned(a + b) && Plug(a + b, t) == Plug(a, Plug(b, t))
  {
    if a == [] {
      assert a + b == b;
    } else {
      PlugConcat(a[1..], b, t);
      assert (a + b)[1..] == a[1..] + b;
    }
  }

  lemma {:induction false} FlatConcat(a: seq<Level>, b: seq<Level>)
    requires Positioned(a) && Positioned(b)
    ensures Positioned(a + b)
    ensures LeftFlat(a + b) == LeftFlat(a) + LeftFlat(b) && RightFlat(a + b) == RightFlat(b) + RightFlat(a)
  {
    if a == [] {
      assert a + b == b;
    } else {
      FlatConcat(a[1..], b);
      assert (a + b)[1..] == a[1..] + b;
    }
  }

  lemma {:induction false} TopFirstConcat(a: seq<Level>, b: seq<Level>, first: nat)
    requires Positioned(a) && Positioned(b)
    ensures Positioned(a + b) && TopFirst(a + b, first) == TopFirst(a, TopFirst(b, first))
  {
    if a == [] {
      assert a + b == b;
    } else {
      TopFirstConcat(a[1..], b, first);
      assert (a + b)[1..] == a[1..] + b;
    }
  }

  lemma {:induction false} PathConcat(a: seq<Level>, b: seq<Level>, depth: nat, first: nat, topMax: nat, blockMax: nat)
    requires Positioned(a) && Positioned(b)
    ensures PathOk(a + b, depth, first, topMax, blockMax) <==>
      && PathOk(a, depth + |b|, TopFirst(b, first), topMax, blockMax)
      && PathOk(b, depth, first, if a == [] then topMax else blockMax, blockMax)
  {
    if a == [] {
      assert a + b == b;
    } else {
      PathConcat(a[1..], b, depth, first, blockMax, blockMax);
      TopFirstConcat(a[1..], b, first);
      assert (a + b)[1..] == a[1..] + b;
    }
  }

  /** Sound levels around a sound node make a sound node. */
  lemma {:induction false} PlugOk(up: seq<Level>, t: Tree, depth: nat, topMax: nat, blockMax: nat)
    requires up != [] && SubOk(t, depth, blockMax) && PathOk(up, depth, First(t), topMax, blockMax)
    ensures Positioned(up)
    ensures var r := Plug(up, t);
            && r.Node? && r.max == topMax && 1 <= |r.entries| <= topMax && First(r) == TopFirst(up, First(t))
            && forall i {:trigger r.entries[i]} :: 0 <= i < |r.entries| ==> EntryOk(r.entries[i], depth + |up| - 1, blockMax)
  {
    var l := up[0];
    if |up| == 1 {
      assert up[1..] == [];
      assert Plug(up[1..], t) == t;
    } else {
      PlugOk(up[1..], t, depth, blockMax, blockMax);
    }
  }

  lemma {:induction false} SameBehind(a: seq<Level>, b: seq<Level>)
    requires Positioned(a) && Positioned(b) && |a| == |b| && forall i :: 0 <= i < |a| ==> a[i].Behind() == b[i].Behind()
    ensures RightFlat(a) == RightFlat(b)
  {
    if a != [] {
      SameBehind(a[1..], b[1..]);
    }
  }
}

/** Which blocks of the device hold the nodes of a tree, and how splitting and growing add to them. */
module ExtentNodes {
  import opened ExtentTree
  import opened ExtentZipper
  import opened ExtentInsert
  import opened ExtentSplit

  /** The blocks that hold the nodes of a tree, each as often as it occurs. */
  ghost function Nodes(t: Tree): multiset<nat>
    decreases t, 0
  {
    multiset{t.blk} + if t.Leaf? then multiset{} else NodesAll(t.entries)
  }

  ghost function NodesAll(entries: seq<Entry>): multiset<nat>
    decreases entries, 0
  {
    if entries == [] then multiset{} else NodesEntry(entries[0]) + NodesAll(entries[1..])
  }

  ghost function NodesEntry(e: Entry): multiset<nat>
    decreases e, 0
  {
    Nodes(e.child)
  }

  /** A level's own block and those of the nodes left and right of the path. */
  ghost function NodesBeside(l: Level): multiset<nat>
    requires l.HasPos()
  {
    multiset{l.blk} + NodesAll(l.entries[..l.pos]) + NodesAll(l.entries[l.pos + 1..])
  }

  /** The blocks of the index nodes on a path and of everything beside it. */
  ghost function NodesUp(up: seq<Level>): multiset<nat>
    requires Positioned(up)
  {
    if up == [] then multiset{} else NodesBeside(up[0]) + NodesUp(up[1..])
  }

  // ----- runs of entries and of levels -----

  lemma {:induction false} NodesConcat(a: seq<Entry>, b: seq<Entry>)
    ensures NodesAll(a + b) == NodesAll(a) + NodesAll(b)
    decreases |a|
  {
    hide Nodes;
    if a == [] {
      assert a + b == b;
    } else {
      assert (a + b)[1..] == a[1..] + b;
      NodesConcat(a[1..], b);
    }
  }

  lemma NodesFew(e: Entry)
    ensures NodesAll([]) == multiset{} && NodesAll([e]) == Nodes(e.child)
  {
    hide Nodes;
    assert [e][1..] == [];
  }

  lemma NodesAt(entries: seq<Entry>, pos: nat)
    requires pos < |entries|
    ensures NodesAll(entries) == NodesAll(entries[..pos]) + Nodes(entries[pos].child) + NodesAll(entries[pos + 1..])
  {
    hide Nodes, NodesAll;
    var e := entries[pos];
    assert entries == entries[..pos] + ([e] + entries[pos + 1..]);
    NodesConcat(entries[..pos], [e] + entries[pos + 1..]);
    NodesConcat([e], entries[pos + 1..]);
    NodesFew(e);
  }

  lemma {:induction false} UpConcat(a: seq<Level>, b: seq<Level>)
    requires Positioned(a) && Positioned(b)
    ensures Positioned(a + b) && NodesUp(a + b) == NodesUp(a) + NodesUp(b)
  {
    hide NodesBeside;
    if a == [] {
      assert a + b == b;
    } else {
      assert (a + b)[1..] == a[1..] + b;
      UpConcat(a[1..], b);
    }
  }

  lemma UpOne(l: Level)
    requires l.HasPos()
    ensures Positioned([l]) && NodesUp([l]) == NodesBeside(l) && NodesUp([]) == multiset{}
  {
    hide NodesBeside;
    assert [l][1..] == [];
  }

  /** A path with its end holds the nodes of the tree that they make. */
  lemma {:induction false} NodesPlug(up: seq<Level>, t: Tree)
    requires Positioned(up)
    ensures Nodes(Plug(up, t)) == NodesUp(up) + Nodes(t)
  {
    hide Nodes, NodesBeside;
    if up != [] {
      NodesPlug(up[1..], t);
      NodesLevel(up[0], Plug(up[1..], t));
    }
  }

  lemma NodesLevel(l: Level, below: Tree)
    requires l.HasPos()
    ensures Nodes(Node(l.blk, l.max, l.entries[l.pos := Entry(l.Key(), below)])) == NodesBeside(l) + Nodes(below)
  {
    hide NodesAll;
    var es := l.entries[l.pos := Entry(l.Key(), below)];
    NodesAt(es, l.pos);
    assert es[..l.pos] == l.entries[..l.pos] && es[l.pos + 1..] == l.entries[l.pos + 1..];
  }

  /** What a tree takes up is its nodes and its data. */
  lemma {:induction false} OwnedIs(t: Tree)
    ensures Owned(t) == Nodes(t) + DataOf(Flat(t))
    decreases t, 0
  {
    hide DataOf;
    if t.Node? {
      OwnedAllIs(t.entries);
    }
  }

  lemma {:induction false} OwnedAllIs(entries: seq<Entry>)
    ensures OwnedAll(entries) == NodesAll(entries) + DataOf(FlatAll(entries))
    decreases entries, 0
  {
    if entries == [] {
      assert DataOf([]) == multiset{};
    } else {
      OwnedEntryIs(entries[0]);
      OwnedAllIs(entries[1..]);
      DataConcat(FlatEntry(entries[0]), FlatAll(entries[1..]));
    }
  }

  lemma {:induction false} OwnedEntryIs(e: Entry)
    ensures OwnedEntry(e) == NodesEntry(e) + DataOf(FlatEntry(e))
    decreases e, 0
  {
    OwnedIs(e.child);
  }

  // ----- data -----

  lemma RangeSplit(start: nat, n: nat, m: nat)
    ensures Range(start, n + m) == Range(start, n) + Range(start + n, m)
  {
    assert Run(start, n + m) == Run(start, n) + Run(start + n, m);
  }

  lemma {:induction false} DataConcat(a: seq<Extent>, b: seq<Extent>)
    ensures DataOf(a + b) == DataOf(a) + DataOf(b)
    decreases |a|
  {
    hide Range;
    if a == [] {
      assert a + b == b;
    } else {
      assert (a + b)[1..] == a[1..] + b;
      DataConcat(a[1..], b);
    }
  }

  lemma DataOne(e: Extent)
    ensures DataOf([e]) == Range(e.start, e.Len())
  {
    assert [e][1..] == [];
  }

  /** The data blocks that the extents gain: merged at the front, an extent takes those behind it instead of the new ones. */
  ghost function Gained(how: How, x: Extent): multiset<nat> {
    if how.Prepend? then Range(how.e.start + how.e.Len(), x.Len()) else Range(x.start, x.Len())
  }

  lemma HowGains(how: How, x: Extent)
    requires how.Fits(x) && x.Valid() && Sorted(how.Old())
    ensures DataOf(how.New(x)) == DataOf(how.Old()) + Gained(how, x)
  {
    hide Range, DataOf;
    match how
    case Insert(a, b) =>
      DataAround(a, x, b);
      DataConcat(a, b);
    case Append(a, e, b) =>
      SortedMiddle(a, e, b);
      DataAround(a, e, b);
      DataAround(a, Appended(e, x), b);
      MergedLen(e, x);
      RangeSplit(e.start, e.Len(), x.Len());
    case Prepend(a, e, b) =>
      SortedMiddle(a, e, b);
      DataAround(a, e, b);
      DataAround(a, Prepended(e, x), b);
      MergedLen(e, x);
      RangeSplit(e.start, e.Len(), x.Len());
  }

  lemma DataAround(a: seq<Extent>, e: Extent, b: seq<Extent>)
    ensures DataOf(a + [e] + b) == DataOf(a) + DataOf(b) + Range(e.start, e.Len())
  {
    hide DataOf, Range;
    DataConcat(a + [e], b);
    DataConcat(a, [e]);
    DataOne(e);
  }

  lemma MergedLen(e: Extent, x: Extent)
    requires e.Valid() && x.Valid() && (CanAppend(e, x) || CanPrepend(e, x))
    ensures Appended(e, x).Len() == Prepended(e, x).Len() == e.Len() + x.Len()
    ensures Appended(e, x).start == Prepended(e, x).start == e.start
  {
  }

  /** Of the blocks given by the allocator all that are gone are in the tree now, besides what it had and what it gained. */
  ghost predicate Balanced(t: Tree, t': Tree, gained: multiset<nat>, supply: seq<nat>, rest: seq<nat>) {
    |rest| <= |supply| && rest == supply[|supply| - |rest|..] && Owned(t') == Owned(t) + gained + multiset(supply[..|supply| - |rest|])
  }

  lemma BalancedIs(t: Tree, t': Tree, gained: multiset<nat>, supply: seq<nat>, rest: seq<nat>, n: nat)
    requires n <= |supply| && rest == supply[n..] && Owned(t') == Owned(t) + gained + multiset(supply[..n])
    ensures Balanced(t, t', gained, supply, rest)
  {
    hide Owned;
  }

  lemma NothingTaken(t: Tree, supply: seq<nat>)
    ensures Balanced(t, t, multiset{}, supply, supply)
  {
    hide Owned;
    assert supply[..0] == [] && supply[0..] == supply;
  }

  /** The first block given is data, the others are nodes. */
  lemma OneTaken(t: Tree, t': Tree, supply: seq<nat>, rest: seq<nat>)
    requires supply != [] && Balanced(t, t', multiset{supply[0]}, supply[1..], rest)
    ensures Balanced(t, t', multiset{}, supply, rest)
  {
    hide Owned;
    var n := |supply| - |rest|;
    assert supply[..n] == [supply[0]] + supply[1..][..n - 1];
    assert multiset(supply[..n]) == multiset{supply[0]} + multiset(supply[1..][..n - 1]);
    assert rest == supply[1..][n - 1..] == supply[n..];
  }

  /** An extent in two pieces has the data of the whole one. */
  lemma SplitBalanced(t: Tree, cut: Tree, t': Tree, piece: multiset<nat>, supply: seq<nat>, rest: seq<nat>)
    requires Balanced(cut, t', piece, supply, rest) && Owned(cut) + piece == Owned(t)
    ensures Balanced(t, t', multiset{}, supply, rest)
  {
    hide Owned;
  }

  /** Blocks that are in use nowhere can be given out, and still every block is in use once at most. */
  lemma OwnedOnce(t: Tree, t': Tree, supply: seq<nat>, rest: seq<nat>)
    requires Balanced(t, t', multiset{}, supply, rest)
    requires forall b :: Owned(t)[b] + multiset(supply)[b] <= 1
    ensures forall b :: Owned(t')[b] + multiset(rest)[b] <= 1
  {
    hide Owned;
    assert supply == supply[..|supply| - |rest|] + rest;
    forall b ensures Owned(t')[b] + multiset(rest)[b] <= 1 {
      assert Owned(t)[b] + multiset(supply)[b] <= 1;
      assert multiset(supply)[b] == multiset(supply[..|supply| - |rest|])[b] + multiset(rest)[b];
    }
  }

  // ----- keys -----

  /** Correcting keys moves no node. */
  lemma {:induction false} FixKeysNodes(up: seq<Level>, first: nat)
    requires Positioned(up)
    ensures NodesUp(FixKeys(up, first)) == NodesUp(up)
  {
    if up != [] {
      var rest := FixKeys(up[1..], first);
      FixKeysNodes(up[1..], first);
      WithKeyFlat(up[0], TopFirst(rest, first));
      assert FixKeys(up, first)[1..] == rest;
    }
  }

  // ----- splitting and growing -----

  lemma HalvesNodes(l: Level, key: nat, child: nat, blk: nat, max: nat)
    requires l.HasPos()
    ensures Kept(l).HasPos() && Moved(l, key, child, blk, max).HasPos()
    ensures NodesBeside(Kept(l)) + NodesBeside(Moved(l, key, child, blk, max)) == NodesBeside(l) + multiset{blk}
  {
    hide NodesAll;
    var k, r := Kept(l), Moved(l, key, child, blk, max);
    NodesFew(Entry(0, Leaf(0, 0, [])));
    assert k.entries[..k.pos] == l.entries[..l.pos] && k.entries[k.pos + 1..] == [];
    assert r.entries[..r.pos] == [] && r.entries[r.pos + 1..] == l.entries[l.pos + 1..];
  }

  /** One more level is cut in two: a block is added. */
  lemma CutNodes(l: Level, b: seq<Level>, kept: seq<Level>, right: seq<Level>, key: nat, child: nat, blk: nat, max: nat, added: multiset<nat>)
    requires l.HasPos() && Positioned(b) && Positioned(kept) && Positioned(right)
    requires NodesUp(kept) + NodesUp(right) == NodesUp(b) + added
    ensures Positioned([l] + b) && Positioned([Kept(l)] + kept) && Positioned([Moved(l, key, child, blk, max)] + right)
    ensures NodesUp([Kept(l)] + kept) + NodesUp([Moved(l, key, child, blk, max)] + right) == NodesUp([l] + b) + added + multiset{blk}
  {
    hide NodesBeside, NodesUp, Kept, Moved;
    var k, r := Kept(l), Moved(l, key, child, blk, max);
    HalvesNodes(l, key, child, blk, max);
    UpOne(l);
    UpOne(k);
    UpOne(r);
    UpConcat([l], b);
    UpConcat([k], kept);
    UpConcat([r], right);
    assert NodesUp([k] + kept) == NodesBeside(k) + NodesUp(kept) && NodesUp([r] + right) == NodesBeside(r) + NodesUp(right);
    AddUp(NodesBeside(k), NodesBeside(r), NodesBeside(l), multiset{blk}, NodesUp(kept), NodesUp(right), NodesUp(b), added);
  }

  lemma AddUp(a: multiset<nat>, b: multiset<nat>, c: multiset<nat>, d: multiset<nat>,
              a': multiset<nat>, b': multiset<nat>, c': multiset<nat>, d': multiset<nat>)
    requires a + b == c + d && a' + b' == c' + d'
    ensures (a + a') + (b + b') == (c + c') + d' + d
  {
    forall x ensures ((a + a') + (b + b'))[x] == ((c + c') + d' + d)[x] {
      assert (a + b)[x] == (c + d)[x] && (a' + b')[x] == (c' + d')[x];
    }
  }

  /** The new nodes are hung in behind the path's entry. */
  lemma WithRightNodes(l: Level, key: nat, child: Tree)
    requires l.HasPos()
    ensures WithRight(l, key, child).HasPos() && NodesBeside(WithRight(l, key, child)) == NodesBeside(l) + Nodes(child)
  {
    hide NodesAll, Nodes;
    var r := WithRight(l, key, child);
    NodesConcat([Entry(key, child)], l.entries[l.pos + 1..]);
    NodesFew(Entry(key, child));
    assert r.entries[..r.pos] == l.entries[..l.pos] && r.entries[r.pos + 1..] == [Entry(key, child)] + l.entries[l.pos + 1..];
  }

  /** The path moves on, and what it leaves is beside it. */
  lemma MovedOnNodes(l: Level, child: Tree, key: nat, blk: nat)
    requires l.HasPos()
    ensures MovedOn(l, child, key, blk).HasPos() && NodesBeside(MovedOn(l, child, key, blk)) == NodesBeside(l) + Nodes(child)
  {
    hide NodesAll, Nodes;
    var r := MovedOn(l, child, key, blk);
    NodesConcat(l.entries[..l.pos], [Entry(l.Key(), child)]);
    NodesFew(Entry(l.Key(), child));
    assert r.entries[..r.pos] == l.entries[..l.pos] + [Entry(l.Key(), child)] && r.entries[r.pos + 1..] == l.entries[l.pos + 1..];
  }

  lemma UpAround(a: seq<Level>, l: Level, b: seq<Level>)
    requires Positioned(a) && l.HasPos() && Positioned(b)
    ensures Positioned(a + ([l] + b)) && NodesUp(a + ([l] + b)) == NodesUp(a) + NodesBeside(l) + NodesUp(b)
  {
    hide NodesUp, NodesBeside;
    UpOne(l);
    UpConcat([l], b);
    UpConcat(a, [l] + b);
  }

  /** A tree that has grown has one node more, in the new block. */
  lemma GrownNodes(t: Tree, blk: nat, sp: Space)
    requires if t.Leaf? then t.exts != [] else t.entries != []
    ensures Nodes(Grown(t, blk, sp)) == Nodes(t) + multiset{blk}
  {
    hide NodesAll;
    NodesFew(Entry(First(t), t.(blk := blk, max := sp.blockMax)));
  }

  lemma LeafNodes(t: Tree)
    requires t.Leaf?
    ensures Nodes(t) == multiset{t.blk}
  {
  }

  lemma TakenSplit(supply: seq<nat>, k: nat, n: nat)
    requires k <= n <= |supply|
    ensures multiset(supply[..n]) == multiset(supply[..k]) + multiset(supply[k..][..n - k])
  {
    assert supply[..n] == supply[..k] + supply[k..][..n - k];
  }
}

/** The hash index of a directory: a root and at most one more level of index blocks above the leaves. */
module DirIndex {
  import opened DirRecords
  import opened HashOrder
  import opened BlockSupply

  // ----- the index as one list of leaves -----

  /** The first entry of an index block has no hash of its own: its place holds the limit and the count. */
  function Norm(entries: seq<DxEntry>, low: nat): seq<DxEntry> {
    if entries == [] then [] else [DxEntry(low, entries[0].block)] + entries[1..]
  }

  function Node(nodes: map<nat, seq<DxEntry>>, block: nat): seq<DxEntry> { if block in nodes then nodes[block] else [] }

  ghost function Part(e: DxEntry, nodes: map<nat, seq<DxEntry>>): seq<DxEntry> { Norm(Node(nodes, e.block), e.hash) }

  ghost function FlatOf(tops: seq<DxEntry>, nodes: map<nat, seq<DxEntry>>): seq<DxEntry> {
    if tops == [] then [] else Part(tops[0], nodes) + FlatOf(tops[1..], nodes)
  }

  ghost function Flat(root: seq<DxEntry>, levels: nat, nodes: map<nat, seq<DxEntry>>): seq<DxEntry> {
    if levels == 0 then Norm(root, 0) else FlatOf(Norm(root, 0), nodes)
  }

  /** A position: the root's entry and, with a second level, the entry of its index block. */
  ghost function IndexOf(root: seq<DxEntry>, levels: nat, nodes: map<nat, seq<DxEntry>>, i: nat, j: nat): nat
    requires i < |root|
  {
    if levels == 0 then i else |FlatOf(Norm(root, 0)[..i], nodes)| + j
  }

  ghost predicate NodesOk(root: seq<DxEntry>, nodes: map<nat, seq<DxEntry>>, limit: nat) {
    && (forall i :: 0 <= i < |root| ==> 1 <= |Node(nodes, root[i].block)| <= limit)
    && forall i, k :: 0 <= i < k < |root| ==> root[i].block != root[k].block
  }

  lemma {:induction false} FlatConcat(a: seq<DxEntry>, b: seq<DxEntry>, nodes: map<nat, seq<DxEntry>>)
    ensures FlatOf(a + b, nodes) == FlatOf(a, nodes) + FlatOf(b, nodes)
  {
    hide Part;
    if a == [] {
      assert a + b == b;
    } else {
      assert (a + b)[1..] == a[1..] + b;
      FlatConcat(a[1..], b, nodes);
    }
  }

  lemma FlatOne(e: DxEntry, nodes: map<nat, seq<DxEntry>>)
    ensures FlatOf([e], nodes) == Part(e, nodes)
  {
    hide Part;
    assert [e][1..] == [];
    assert FlatOf([], nodes) == [];
  }

  /** The list around the part below one entry. */
  lemma FlatAround(tops: seq<DxEntry>, nodes: map<nat, seq<DxEntry>>, i: nat)
    requires i < |tops|
    ensures FlatOf(tops, nodes) == FlatOf(tops[..i], nodes) + Part(tops[i], nodes) + FlatOf(tops[i + 1..], nodes)
  {
    hide Part, FlatOf;
    assert tops == tops[..i] + [tops[i]] + tops[i + 1..];
    FlatConcat(tops[..i] + [tops[i]], tops[i + 1..], nodes);
    FlatConcat(tops[..i], [tops[i]], nodes);
    FlatOne(tops[i], nodes);
  }

  lemma {:induction false} FlatOther(tops: seq<DxEntry>, nodes: map<nat, seq<DxEntry>>, block: nat, entries: seq<DxEntry>)
    requires forall i :: 0 <= i < |tops| ==> tops[i].block != block
    ensures FlatOf(tops, nodes[block := entries]) == FlatOf(tops, nodes)
  {
    if tops != [] {
      FlatOther(tops[1..], nodes, block, entries);
    }
  }

  lemma NormAt(entries: seq<DxEntry>, low: nat)
    ensures |Norm(entries, low)| == |entries|
    ensures forall i :: 0 <= i < |entries| ==> Norm(entries, low)[i] == if i == 0 then DxEntry(low, entries[0].block) else entries[i]
  {
  }

  /** Each part is not empty, and begins with its entry's key. */
  lemma {:induction false} PartAt(tops: seq<DxEntry>, nodes: map<nat, seq<DxEntry>>, i: nat)
    requires i < |tops| && Node(nodes, tops[i].block) != []
    ensures var n := |FlatOf(tops[..i], nodes)|;
            n < |FlatOf(tops, nodes)| && FlatOf(tops, nodes)[n].hash == tops[i].hash && n + |Node(nodes, tops[i].block)| <= |FlatOf(tops, nodes)|
    ensures var n := |FlatOf(tops[..i], nodes)|;
            forall j :: 0 <= j < |Node(nodes, tops[i].block)| ==> FlatOf(tops, nodes)[n + j] == Part(tops[i], nodes)[j]
  {
    hide FlatOf;
    FlatAround(tops, nodes, i);
    NormAt(Node(nodes, tops[i].block), tops[i].hash);
  }

  ghost predicate NonEmpty(tops: seq<DxEntry>, nodes: map<nat, seq<DxEntry>>) { forall i :: 0 <= i < |tops| ==> Node(nodes, tops[i].block) != [] }

  /** Keys of the root and of each index block ascend when those of the whole list do. */
  lemma TopsSorted(tops: seq<DxEntry>, nodes: map<nat, seq<DxEntry>>)
    requires Sorted(FlatOf(tops, nodes)) && NonEmpty(tops, nodes)
    ensures Sorted(tops)
  {
    hide FlatOf;
    forall a, b | 0 <= a < b < |tops| ensures tops[a].hash <= tops[b].hash {
      PartAt(tops, nodes, a);
      PartAt(tops, nodes, b);
      assert tops[..b] == tops[..a] + tops[a..b];
      FlatConcat(tops[..a], tops[a..b], nodes);
    }
  }

  lemma PartSorted(tops: seq<DxEntry>, nodes: map<nat, seq<DxEntry>>, i: nat)
    requires Sorted(FlatOf(tops, nodes)) && NonEmpty(tops, nodes) && i < |tops|
    ensures Sorted(Part(tops[i], nodes))
  {
    hide FlatOf;
    PartAt(tops, nodes, i);
    NormAt(Node(nodes, tops[i].block), tops[i].hash);
    var n, flat, part := |FlatOf(tops[..i], nodes)|, FlatOf(tops, nodes), Part(tops[i], nodes);
    forall a, b | 0 <= a < b < |part| ensures part[a].hash <= part[b].hash {
      assert part[a] == flat[n + a] && part[b] == flat[n + b];
    }
  }

  /** The last of the parts that may begin with a hash, and the last entry in it, are the last in the whole list. */
  lemma LastInTree(tops: seq<DxEntry>, nodes: map<nat, seq<DxEntry>>, h: nat, i: nat, j: nat)
    requires Sorted(FlatOf(tops, nodes)) && NonEmpty(tops, nodes) && LastAtMost(tops, h, i) && LastAtMost(Part(tops[i], nodes), h, j)
    ensures LastAtMost(FlatOf(tops, nodes), h, |FlatOf(tops[..i], nodes)| + j)
  {
    hide FlatOf, Sorted;
    var flat, n, part := FlatOf(tops, nodes), |FlatOf(tops[..i], nodes)|, Part(tops[i], nodes);
    FlatAround(tops, nodes, i);
    assert flat[n + j] == part[j];
    forall q | n + j < q < |flat| ensures flat[q].hash > h {
      if q < n + |part| {
        assert flat[q] == part[q - n];
      } else {
        NextPart(tops, nodes, i, q);
      }
    }
  }

  lemma NextPart(tops: seq<DxEntry>, nodes: map<nat, seq<DxEntry>>, i: nat, q: nat)
    requires Sorted(FlatOf(tops, nodes)) && NonEmpty(tops, nodes) && i < |tops|
    requires |FlatOf(tops[..i], nodes)| + |Part(tops[i], nodes)| <= q < |FlatOf(tops, nodes)|
    ensures i + 1 < |tops| && tops[i + 1].hash <= FlatOf(tops, nodes)[q].hash
    ensures |FlatOf(tops[..i + 1], nodes)| == |FlatOf(tops[..i], nodes)| + |Part(tops[i], nodes)|
    ensures FlatOf(tops, nodes)[|FlatOf(tops[..i + 1], nodes)|].hash == tops[i + 1].hash
  {
    hide Part, FlatOf, Sorted;
    FlatAround(tops, nodes, i);
    assert tops[..i + 1] == tops[..i] + [tops[i]];
    FlatConcat(tops[..i], [tops[i]], nodes);
    FlatOne(tops[i], nodes);
    if i + 1 < |tops| {
      PartAt(tops, nodes, i + 1);
      SortedAt(FlatOf(tops, nodes), |FlatOf(tops[..i + 1], nodes)|, q);
    }
    FlatEnd(tops, nodes, i + 1);
  }

  lemma SortedAt(flat: seq<DxEntry>, a: nat, b: nat)
    requires Sorted(flat) && a <= b < |flat|
    ensures flat[a].hash <= flat[b].hash
  {
  }

  lemma FlatEnd(tops: seq<DxEntry>, nodes: map<nat, seq<DxEntry>>, i: nat)
    requires i <= |tops|
    ensures i == |tops| ==> FlatOf(tops[i..], nodes) == []
  {
  }

  // ----- what changes in index blocks do to the list -----

  /** ext4_dir_dx_insert_entry: an entry right behind the one at position at. */
  function InsertEntry(entries: seq<DxEntry>, at: nat, x: DxEntry): seq<DxEntry>
    requires at < |entries|
  {
    entries[..at + 1] + [x] + entries[at + 1..]
  }

  lemma InsertIs(entries: seq<DxEntry>, at: nat, x: DxEntry)
    requires at < |entries|
    ensures |InsertEntry(entries, at, x)| == |entries| + 1 && InsertEntry(entries, at, x) == SplitFlat(entries, at, x.hash, x.block)
    ensures InsertEntry(entries, at, x)[0] == entries[0]
  {
  }

  lemma NormInsert(entries: seq<DxEntry>, low: nat, at: nat, x: DxEntry)
    requires at < |entries|
    ensures at < |Norm(entries, low)| && Norm(InsertEntry(entries, at, x), low) == InsertEntry(Norm(entries, low), at, x)
  {
  }

  /** An entry put into an index block stands behind the same leaf in the list. */
  lemma InsertInNode(tops: seq<DxEntry>, nodes: map<nat, seq<DxEntry>>, i: nat, j: nat, x: DxEntry)
    requires i < |tops| && j < |Node(nodes, tops[i].block)| && DistinctBlocks(tops)
    ensures var p := |FlatOf(tops[..i], nodes)| + j;
            p < |FlatOf(tops, nodes)|
            && FlatOf(tops, nodes[tops[i].block := InsertEntry(Node(nodes, tops[i].block), j, x)]) == InsertEntry(FlatOf(tops, nodes), p, x)
  {
    hide FlatOf, Norm;
    var b, e := tops[i].block, Node(nodes, tops[i].block);
    var nodes' := nodes[b := InsertEntry(e, j, x)];
    FlatAround(tops, nodes, i);
    FlatAround(tops, nodes', i);
    FlatOther(tops[..i], nodes, b, InsertEntry(e, j, x));
    FlatOther(tops[i + 1..], nodes, b, InsertEntry(e, j, x));
    NormInsert(e, tops[i].hash, j, x);
    InsertAround(FlatOf(tops[..i], nodes), Part(tops[i], nodes), FlatOf(tops[i + 1..], nodes), j, x);
  }

  lemma InsertAround(a: seq<DxEntry>, m: seq<DxEntry>, b: seq<DxEntry>, j: nat, x: DxEntry)
    requires j < |m|
    ensures InsertEntry(a + m + b, |a| + j, x) == a + InsertEntry(m, j, x) + b
  {
  }

  /** An index block cut in two, the second part hung behind it in the root. */
  lemma NodeSplit(tops: seq<DxEntry>, nodes: map<nat, seq<DxEntry>>, i: nat, c: nat, block: nat)
    requires i < |tops| && 0 < c < |Node(nodes, tops[i].block)| && DistinctBlocks(tops) && forall k :: 0 <= k < |tops| ==> tops[k].block != block
    ensures var e := Node(nodes, tops[i].block);
            var nodes' := nodes[tops[i].block := e[..c]][block := e[c..]];
            var tops' := InsertEntry(tops, i, DxEntry(e[c].hash, block));
            && FlatOf(tops', nodes') == FlatOf(tops, nodes) && FlatOf(tops'[..i], nodes') == FlatOf(tops[..i], nodes)
            && |FlatOf(tops'[..i + 1], nodes')| == |FlatOf(tops[..i], nodes)| + c
  {
    hide FlatOf, Norm;
    var e := Node(nodes, tops[i].block);
    var one := nodes[tops[i].block := e[..c]];
    var nodes' := one[block := e[c..]];
    var x := DxEntry(e[c].hash, block);
    var tops' := InsertEntry(tops, i, x);
    FlatAround(tops, nodes, i);
    FlatOther(tops[..i], nodes, tops[i].block, e[..c]);
    FlatOther(tops[..i], one, block, e[c..]);
    FlatOther(tops[i + 1..], nodes, tops[i].block, e[..c]);
    FlatOther(tops[i + 1..], one, block, e[c..]);
    assert tops' == tops[..i] + [tops[i]] + [x] + tops[i + 1..];
    assert tops'[..i] == tops[..i] && tops'[..i + 1] == tops[..i] + [tops[i]];
    FlatConcat(tops[..i] + [tops[i]] + [x], tops[i + 1..], nodes');
    FlatConcat(tops[..i] + [tops[i]], [x], nodes');
    FlatConcat(tops[..i], [tops[i]], nodes');
    FlatOne(tops[i], nodes');
    FlatOne(x, nodes');
    NormCut(e, tops[i].hash, c);
  }

  lemma NormCut(e: seq<DxEntry>, low: nat, c: nat)
    requires 0 < c < |e|
    ensures |Norm(e[..c], low)| == c && Norm(e[..c], low) + Norm(e[c..], e[c].hash) == Norm(e, low)
  {
  }

  /** All entries of the root moved to a new index block: the list is as before. */
  lemma RootMoved(root: seq<DxEntry>, nodes: map<nat, seq<DxEntry>>, block: nat, e: DxEntry)
    requires root != [] && e.block == block
    ensures FlatOf(Norm([e], 0), nodes[block := root]) == Norm(root, 0) && FlatOf(Norm([e], 0)[..0], nodes[block := root]) == []
  {
    var top := DxEntry(0, block);
    assert Norm([e], 0) == [top];
    FlatOne(top, nodes[block := root]);
  }

  // ----- the directory -----

  /** The index after a block was added to it: it takes the whole root, or the second half of a full index block and a place behind it. */
  ghost predicate IndexGrown(root: seq<DxEntry>, levels: nat, nodes: map<nat, seq<DxEntry>>, i: nat, block: nat,
                             root': seq<DxEntry>, levels': nat, nodes': map<nat, seq<DxEntry>>)
  {
    && i < |root| && levels' == 1
    && if levels == 0 then
         root' == [DxEntry(root[0].hash, block)] && nodes' == nodes[block := root]
       else
         var e := Node(nodes, root[i].block);
         && e != [] && root' == InsertEntry(root, i, DxEntry(e[|e| / 2].hash, block))
         && nodes' == nodes[root[i].block := e[..|e| / 2]][block := e[|e| / 2..]]
  }

  /** The index after one entry more at position i, j. */
  ghost predicate EntryAdded(root: seq<DxEntry>, levels: nat, nodes: map<nat, seq<DxEntry>>, i: nat, j: nat, x: DxEntry,
                             root': seq<DxEntry>, nodes': map<nat, seq<DxEntry>>)
  {
    && i < |root|
    && if levels == 0 then root' == InsertEntry(root, i, x) && nodes' == nodes
       else root' == root && var e := Node(nodes, root[i].block); j < |e| && nodes' == nodes[root[i].block := InsertEntry(e, j, x)]
  }

  datatype Found = NotFound | FoundAt(block: nat, record: nat, inode: nat)

  class HTree {
    const size: nat
    const hash: HashFn
    const rootLimit: nat
    const nodeLimit: nat
    // The entries of the root, how many levels lie below it, the index blocks of the second level, and the leaves.
    var root: seq<DxEntry>
    var levels: nat
    var nodes: map<nat, seq<DxEntry>>
    var leaves: map<nat, seq<Rec>>

    /** ext4_dir_dx_init: one entry, and a leaf with nothing in it. */
    constructor (size: nat, hash: HashFn, leaf: nat, stale: seq<Byte>)
      requires size >= 1024 && size % 8 == 0 && HashOk(hash) && |stale| < 256
      ensures Valid() && this.size == size && this.hash == hash && Names() == multiset{}
      ensures List() == [DxEntry(0, leaf)] && root == List() && levels == 0 && leaves == map[leaf := [Rec(0, size, 0, stale)]]
    {
      this.size, this.hash := size, hash;
      rootLimit, nodeLimit := (size - 32) / 8, (size - 8) / 8;
      root, levels, nodes := [DxEntry(0, leaf)], 0, map[];
      leaves := map[leaf := [Rec(0, size, 0, stale)]];
      new;
      OneLeaf(leaf, Rec(0, size, 0, stale), leaves, hash, size);
    }

    ghost function List(): seq<DxEntry>
      reads this
    {
      Flat(root, levels, nodes)
    }

    /** Everything the directory holds. */
    ghost function Names(): multiset<(seq<Byte>, nat)>
      reads this
    {
      AllBag(List(), leaves)
    }

    ghost predicate IndexOk()
      reads this
    {
      && size >= 1024 && rootLimit == (size - 32) / 8 && nodeLimit == (size - 8) / 8 && HashOk(hash)
      && levels <= 1 && 1 <= |root| <= rootLimit && (levels == 1 ==> NodesOk(root, nodes, nodeLimit))
    }

    ghost predicate Valid()
      reads this
    {
      IndexOk() && Ordered(List(), leaves, hash, size)
    }

    ghost predicate Position(i: nat, j: nat)
      reads this
    {
      i < |root| && if levels == 0 then j == 0 else j < |Node(nodes, root[i].block)|
    }

    ghost function Here(i: nat, j: nat): nat
      reads this
      requires Position(i, j)
    {
      IndexOf(root, levels, nodes, i, j)
    }

    /** The leaf's block at a position. */
    function LeafBlock(i: nat, j: nat): nat
      reads this
      requires Position(i, j)
    {
      if levels == 0 then root[i].block else Node(nodes, root[i].block)[j].block
    }

    /** The binary search of one index block. */
    static method BinSearch(entries: seq<DxEntry>, ghost low: nat, h: nat) returns (at: nat)
      requires entries != [] && Sorted(Norm(entries, low)) && low <= h
      ensures LastAtMost(Norm(entries, low), h, at)
    {
      hide Norm;
      ghost var keys := Norm(entries, low);
      NormAt(entries, low);
      var p, q := 1, |entries| - 1;
      while p <= q
        invariant 1 <= p <= q + 1 <= |entries|
        invariant keys[p - 1].hash <= h && forall k :: q < k < |entries| ==> keys[k].hash > h
      {
        var m := p + (q - p) / 2;
        assert keys[m] == entries[m];
        if entries[m].hash > h {
          q := m - 1;
        } else {
          p := m + 1;
        }
      }
      at := p - 1;
    }

    /** ext4_dir_dx_get_leaf: the last leaf that may begin with the hash */
    method GetLeaf(h: nat) returns (i: nat, j: nat)
      requires Valid()
      ensures Position(i, j) && LastAtMost(List(), h, Here(i, j))
    {
      hide Ordered, Norm, FlatOf, LastAtMost, Sorted;
      ListSorted(List(), leaves, hash, size);
      NormAt(root, 0);
      j := 0;
      if levels == 0 {
        i := BinSearch(root, 0, h);
        LastBound(Norm(root, 0), h, i);
      } else {
        ghost var tops := Norm(root, 0);
        TopsOf(root, nodes, nodeLimit);
        TopsSorted(tops, nodes);
        i := BinSearch(root, 0, h);
        LastBound(tops, h, i);
        PartSorted(tops, nodes, i);
        j := BinSearch(Node(nodes, root[i].block), tops[i].hash, h);
        NormAt(Node(nodes, root[i].block), tops[i].hash);
        LastBound(Part(tops[i], nodes), h, j);
        LastInTree(tops, nodes, h, i, j);
      }
    }

    /** ext4_dir_dx_next_block: the next leaf, if it goes on with the hash */
    method NextBlock(h: nat, i: nat, j: nat) returns (more: bool, i': nat, j': nat)
      requires Valid() && Position(i, j) && h % 2 == 0
      ensures Here(i, j) < |List()|
      ensures more == (Here(i, j) + 1 < |List()| && Low(List()[Here(i, j) + 1].hash) == h)
      ensures more ==> Position(i', j') && Here(i', j') == Here(i, j) + 1
    {
      hide Ordered, Norm, FlatOf, Sorted;
      NormAt(root, 0);
      i', j' := i, j;
      var current: nat;
      if levels == 0 {
        if i + 1 >= |root| {
          return false, i, j;
        }
        i', current := i + 1, root[i + 1].hash;
      } else {
        ghost var tops := Norm(root, 0);
        TopsOf(root, nodes, nodeLimit);
        ListSorted(List(), leaves, hash, size);
        PartAt(tops, nodes, i);
        NormAt(Node(nodes, root[i].block), tops[i].hash);
        FlatPast(tops, nodes, i);
        if j + 1 < |Node(nodes, root[i].block)| {
          j', current := j + 1, Node(nodes, root[i].block)[j + 1].hash;
        } else if i + 1 < |root| {
          i', j', current := i + 1, 0, root[i + 1].hash;
        } else {
          return false, i, j;
        }
      }
      more := !(h % 2 == 0 && Low(current) != h);
    }

    /** ext4_dir_dx_find_entry: a name is found just when some leaf has it, wherever its hash has spread. */
    method FindEntry(name: seq<Byte>) returns (found: Found, ghost p: nat)
      requires Valid()
      ensures found != NotFound ==> p < |List()| && List()[p].block == found.block
      ensures found == NotFound ==> forall inode: nat :: (name, inode) !in Names()
      ensures found != NotFound ==> (name, found.inode) in Names() && found.block in leaves && found.record < |leaves[found.block]|
      ensures found != NotFound ==> leaves[found.block][found.record].name == name && leaves[found.block][found.record].inode == found.inode != 0
      ensures found != NotFound ==>
        forall m :: 0 <= m < found.record ==> leaves[found.block][m].inode == 0 || leaves[found.block][m].name != name
    {
      hide Ordered, Lookup, Flat, AllBag, Norm, LastAtMost;
      var h := hash(name);
      var i, j := GetLeaf(h);
      ghost var flat, p0 := List(), Here(i, j);
      p := p0;
      var more := true;
      LastBound(flat, h, p0);
      while more
        invariant Position(i, j) && p0 <= Here(i, j) < |flat|
        invariant forall q :: p0 <= q < Here(i, j) ==> Lookup(Leaf(leaves, flat[q].block), name) == 0
        invariant !more ==> Lookup(Leaf(leaves, flat[Here(i, j)].block), name) == 0
        invariant !more ==> Here(i, j) + 1 < |flat| ==> Low(flat[Here(i, j) + 1].hash) != h
        decreases |flat| - Here(i, j), more
      {
        LeafAt(root, levels, nodes, nodeLimit, i, j);
        var block := LeafBlock(i, j);
        var leaf := Leaf(leaves, block);
        var k := FindRec(leaf, name);
        if k < |leaf| {
          InNames(flat, leaves, Here(i, j), k);
          return FoundAt(block, k, leaf[k].inode), Here(i, j);
        }
        var i', j';
        more, i', j' := NextBlock(h, i, j);
        if more {
          i, j := i', j';
        }
      }
      Nowhere(flat, leaves, hash, size, name, p0, Here(i, j));
      found, p := NotFound, 0;
    }

    /** The index block that has the leaf's entry has room for another one. */
    ghost predicate HasRoom(i: nat)
      reads this
      requires i < |root|
    {
      if levels == 0 then |root| < rootLimit else |Node(nodes, root[i].block)| < nodeLimit
    }

    /** No index block and no leaf. */
    ghost predicate Fresh(block: nat)
      reads this
    {
      && (levels == 1 ==> forall k :: 0 <= k < |root| ==> root[k].block != block)
      && forall p :: 0 <= p < |List()| ==> List()[p].block != block
    }

    /** Appending to the directory yields blocks that it does not have yet. */
    ghost predicate Supplied(supply: seq<nat>)
      reads this
    {
      && (forall k :: 0 <= k < |supply| ==> Fresh(supply[k]))
      && forall a, b :: 0 <= a < b < |supply| ==> supply[a] != supply[b]
    }

    /** The root's entries move to a new index block. */
    method GrowIndex(i: nat, block: nat, ghost rest: seq<nat>) returns (i': nat, j': nat)
      requires IndexOk() && levels == 0 && i < |root| == rootLimit && Supplied([block] + rest)
      modifies `root, `levels, `nodes
      ensures IndexOk() && List() == old(List()) && Supplied(rest)
      ensures Position(i', j') && Here(i', j') == i && HasRoom(i')
      ensures IndexGrown(old(root), old(levels), old(nodes), i, block, root, levels, nodes)
    {
      hide FlatOf, Norm;
      ghost var supply := [block] + rest;
      assert supply[0] == block && forall k :: 0 <= k < |rest| ==> rest[k] == supply[k + 1];
      var entry := DxEntry(root[0].hash, block);
      RootMoved(root, nodes, block, entry);
      nodes := nodes[block := root];
      root, levels := [entry], 1;
      i', j' := 0, i;
    }

    /** A full index block is cut in two. */
    method SplitNode(i: nat, j: nat, block: nat, ghost rest: seq<nat>) returns (i': nat, j': nat)
      requires IndexOk() && levels == 1 && Position(i, j) && |root| < rootLimit && |Node(nodes, root[i].block)| == nodeLimit
      requires Supplied([block] + rest)
      modifies `root, `nodes
      ensures IndexOk() && List() == old(List()) && Supplied(rest)
      ensures Position(i', j') && Here(i', j') == old(Here(i, j)) && HasRoom(i')
      ensures IndexGrown(old(root), old(levels), old(nodes), i, block, root, levels, nodes)
    {
      hide Flat, IndexOf, InsertEntry, NodesOk;
      ghost var supply, r := [block] + rest, root;
      assert supply[0] == block && forall k :: 0 <= k < |rest| ==> rest[k] == supply[k + 1];
      var e := Node(nodes, root[i].block);
      var c := |e| / 2;
      var right := DxEntry(e[c].hash, block);
      CutNode(root, nodes, i, c, block, right, nodeLimit);
      IndexShift(root, nodes, i, j);
      nodes := nodes[root[i].block := e[..c]][block := e[c..]];
      root := InsertEntry(root, i, right);
      InsertAt(r, i, right, root);
      if j >= c {
        i', j' := i + 1, j - c;
      } else {
        i', j' := i, j;
      }
      IndexShift(root, nodes, i', j');
    }

    /** ext4_dir_dx_split_index: room for one more entry; there is none just when the index is full or the directory cannot grow. */
    method SplitIndex(i: nat, j: nat, src: BlockSource) returns (err: Error, i': nat, j': nat)
      requires IndexOk() && Position(i, j) && Supplied(src.supply)
      modifies `root, `levels, `nodes, src
      ensures IndexOk() && List() == old(List()) && Supplied(src.supply)
      ensures err == if old(HasRoom(i)) then EOK else if old(levels == 1 && |root| == rootLimit) || old(src.supply) == [] then ENOSPC else EOK
      ensures err == EOK ==> Position(i', j') && Here(i', j') == old(Here(i, j)) && HasRoom(i')
      ensures err == EOK ==> src.supply == if old(HasRoom(i)) then old(src.supply) else old(src.supply)[1..]
      ensures err == EOK && !old(HasRoom(i)) ==> IndexGrown(old(root), old(levels), old(nodes), i, old(src.supply)[0], root, levels, nodes)
      ensures err == ENOSPC || old(HasRoom(i)) ==> root == old(root) && levels == old(levels) && nodes == old(nodes) && i' == i && j' == j
    {
      hide IndexGrown, FlatOf, Norm, Flat;
      err, i', j' := EOK, i, j;
      var full := if levels == 0 then |root| == rootLimit else |Node(nodes, root[i].block)| == nodeLimit;
      if full {
        if levels > 0 && |root| == rootLimit {
          return ENOSPC, i, j;
        }
        ghost var supply := src.supply;
        var new_iblk;
        err, new_iblk := src.Alloc();
        if err == EOK {
          assert supply == [new_iblk] + src.supply;
          if levels > 0 {
            i', j' := SplitNode(i, j, new_iblk, src.supply);
          } else {
            i', j' := GrowIndex(i, new_iblk, src.supply);
          }
        }
      }
    }

    /** ext4_dir_dx_insert_entry behind a leaf: the new leaf comes next in the list. */
    method InsertLeaf(i: nat, j: nat, key: nat, block: nat)
      requires IndexOk() && Position(i, j) && HasRoom(i)
      modifies `root, `nodes
      ensures IndexOk() && old(Here(i, j)) < |old(List())| && List() == SplitFlat(old(List()), old(Here(i, j)), key, block)
      ensures EntryAdded(old(root), levels, old(nodes), i, j, DxEntry(key, block), root, nodes)
    {
      hide FlatOf, Norm, InsertEntry, SplitFlat;
      var x := DxEntry(key, block);
      NormAt(root, 0);
      if levels == 0 {
        NormInsert(root, 0, i, x);
        InsertIs(root, i, x);
        InsertIs(Norm(root, 0), i, x);
        root := InsertEntry(root, i, x);
      } else {
        TopsOf(root, nodes, nodeLimit);
        InsertInNode(Norm(root, 0), nodes, i, j, x);
        InsertIs(Node(nodes, root[i].block), j, x);
        InsertIs(List(), Here(i, j), x);
        nodes := nodes[root[i].block := InsertEntry(Node(nodes, root[i].block), j, x)];
      }
    }

    /** A name put into one leaf, if that has room. */
    method PutInto(block: nat, x: Rec, ghost p: nat) returns (ok: bool)
      requires IndexOk() && DistinctBlocks(List()) && p < |List()| && List()[p].block == block
      requires x.inode != 0 && |x.name| < 256 && x.name != []
      modifies `leaves
      ensures ok == !NoneFits(old(Leaf(leaves, block)), Room(|x.name|))
      ensures Names() == old(Names()) + if ok then multiset{(x.name, x.inode)} else multiset{}
      ensures old(Valid()) && List()[p].hash <= hash(x.name) < KeyAfter(List(), p) ==> Valid()
      ensures !ok ==> leaves == old(leaves)
      ensures PutIn(old(leaves), block, x, leaves)
    {
      hide Ordered, Flat, AllBag, Bag, Inserted, Fits, Room, LeafOk, InRange;
      ghost var flat, was := List(), leaves;
      var recs;
      ghost var at;
      ok, recs, at := InsertRec(Leaf(leaves, block), x);
      if ok {
        leaves := leaves[block := recs];
        NamePutBag(flat, was, p, at, x);
        if Ordered(flat, was, hash, size) && flat[p].hash <= hash(x.name) < KeyAfter(flat, p) {
          NamePut(flat, was, hash, size, p, at, x);
        }
      }
    }

    /**
     ext4_dir_dx_split_data: half of the leaf's records, by their hashes, move to a new leaf.  stray is the word in front of
     the sort buffer, which is read when there is no first half, and stale what the new block held before.
     */
    method SplitData(i: nat, j: nat, stray: nat, stale: seq<Rec>, src: BlockSource)
      returns (err: Error, key: nat, block: nat, ghost s: seq<Rec>, ghost mid: nat)
      requires Valid() && Position(i, j) && HasRoom(i) && Supplied(src.supply)
      modifies this, src
      ensures IndexOk() && err == if old(src.supply) == [] then ENOSPC else EOK
      ensures err == EOK ==> [block] + src.supply == old(src.supply)
      ensures err == ENOSPC ==> Valid() && List() == old(List()) && leaves == old(leaves) && root == old(root) && nodes == old(nodes)
      ensures err == EOK ==> EntryAdded(old(root), old(levels), old(nodes), i, j, DxEntry(key, block), root, nodes)
      ensures levels == old(levels)
      ensures err == EOK ==> Halved(old(List()), old(leaves), old(Here(i, j)), List(), leaves, key, block, s, mid, stray, stale)
      ensures err == EOK && mid > 0 ==> Valid() && Names() == old(Names())
      ensures err == EOK && mid == 0 ==> Names() == old(Names()) + Bag(if s == [] then stale else Leaf(old(leaves), old(List()[Here(i, j)].block)))
    {
      hide EntryAdded, Flat, AllBag, Bag, LeafOk, InRange, Sorted, DistinctBlocks, Packed, RoomTotal, Live, SortOf;
      ghost var flat, was, p := List(), leaves, Here(i, j);
      LeafAt(root, levels, nodes, nodeLimit, i, j);
      var old_block := LeafBlock(i, j);
      var leaf := Leaf(leaves, old_block);
      assert LeafFits(flat, was, hash, size, p);
      var sort := SortByHash(Live(leaf), hash);
      IsSortOf(sort, leaf, hash);
      ghost var supply := src.supply;
      err, block := src.Alloc();
      s, mid, key := sort, 0, 0;
      if err == EOK {
        assert supply[0] == block;
        var at := FindMid(sort, size / 2);
        mid := at;
        SortMid(sort, leaf, size, hash, at);
        var new_hash := if at > 0 then hash(sort[at].name) else 0;
        var before := if at > 0 then hash(sort[at - 1].name) else stray;
        key := new_hash + if new_hash == before then 1 else 0;
        leaves := leaves[old_block := FirstHalf(sort, at, size, leaf)][block := SecondHalf(sort, at, size, stale)];
        InsertLeaf(i, j, key, block);
        if at > 0 {
          SplitKeeps(flat, was, hash, size, p, sort, at, block);
        } else {
          SplitDoubles(flat, was, hash, size, p, sort, key, block, stale);
        }
      }
    }

    /** The state after a split: what the two leaves hold and where the new one stands. */
    ghost predicate Halved(flat: seq<DxEntry>, was: map<nat, seq<Rec>>, p: nat, flat': seq<DxEntry>, leaves': map<nat, seq<Rec>>,
                           key: nat, block: nat, s: seq<Rec>, mid: nat, stray: nat, stale: seq<Rec>)
    {
      && p < |flat| && (forall q :: 0 <= q < |flat| ==> flat[q].block != block)
      && SortOf(s, Leaf(was, flat[p].block), hash) && IsMid(s, size / 2, mid) && mid <= |s| && (mid > 0 ==> mid < |s|)
      && (mid > 0 <==> RoomTotal(Live(Leaf(was, flat[p].block))) > size / 2)
      && RoomTotal(s) <= size && RoomTotal(s[..mid]) <= size && RoomTotal(s[mid..]) <= size
      && key == (if mid > 0 then SplitKey(s, hash, mid) else if stray == 0 then 1 else 0)
      && flat' == SplitFlat(flat, p, key, block)
      && leaves' == SplitLeaves(was, flat[p].block, block, FirstHalf(s, mid, size, Leaf(was, flat[p].block)), SecondHalf(s, mid, size, stale))
    }

    /** The leaf has taken the record where it fits first, or nothing has changed for want of room. */
    ghost predicate PutIn(was: map<nat, seq<Rec>>, block: nat, x: Rec, leaves': map<nat, seq<Rec>>) {
      if NoneFits(Leaf(was, block), Room(|x.name|)) then leaves' == was
      else leaves' == was[block := Leaf(leaves', block)] && FirstFit(Leaf(was, block), x, Leaf(leaves', block))
    }

    /** The leaf at p was split, and then the half to which the record's hash belongs was to take it. */
    ghost predicate SplitPut(flat: seq<DxEntry>, was: map<nat, seq<Rec>>, p: nat, flat': seq<DxEntry>, leaves': map<nat, seq<Rec>>,
                             key: nat, block: nat, x: Rec, s: seq<Rec>, mid: nat, stray: nat, stale: seq<Rec>)
    {
      p < |flat| && mid <= |s| && RoomTotal(s[..mid]) <= size && RoomTotal(s[mid..]) <= size &&
      var leaf := Leaf(was, flat[p].block);
      var halves := SplitLeaves(was, flat[p].block, block, FirstHalf(s, mid, size, leaf), SecondHalf(s, mid, size, stale));
      && Halved(flat, was, p, flat', halves, key, block, s, mid, stray, stale)
      && PutIn(halves, if hash(x.name) >= key then block else flat[p].block, x, leaves')
    }

    lemma SplitPutIs(flat: seq<DxEntry>, was: map<nat, seq<Rec>>, p: nat, flat': seq<DxEntry>, halves: map<nat, seq<Rec>>,
                     leaves': map<nat, seq<Rec>>, key: nat, block: nat, x: Rec, s: seq<Rec>, mid: nat, stray: nat, stale: seq<Rec>)
      requires Halved(flat, was, p, flat', halves, key, block, s, mid, stray, stale)
      requires PutIn(halves, if hash(x.name) >= key then block else flat[p].block, x, leaves')
      ensures SplitPut(flat, was, p, flat', leaves', key, block, x, s, mid, stray, stale)
    {
      hide PutIn;
    }

    /** After a split the name goes to the half that its hash belongs to; whether it found room there is not looked at. */
    method PutInHalf(oldBlock: nat, newBlock: nat, key: nat, x: Rec, ghost flat: seq<DxEntry>, ghost was: map<nat, seq<Rec>>, ghost p: nat,
                     ghost s: seq<Rec>, ghost mid: nat, ghost stray: nat, ghost stale: seq<Rec>)
      returns (ghost ok: bool)
      requires IndexOk() && Halved(flat, was, p, List(), leaves, key, newBlock, s, mid, stray, stale) && oldBlock == flat[p].block
      requires Ordered(flat, was, hash, size) && LastAtMost(flat, hash(x.name), p)
      requires x.inode != 0 && |x.name| < 256 && x.name != []
      modifies `leaves
      ensures Names() == old(Names()) + if ok then multiset{(x.name, x.inode)} else multiset{}
      ensures mid > 0 && old(Valid()) ==> Valid() && ok == !TooBig(x, s, hash, mid, size)
      ensures PutIn(old(leaves), if hash(x.name) >= key then newBlock else oldBlock, x, leaves)
    {
      hide Ordered, Flat, AllBag, Bag, LeafOk, InRange, Packed, Inserted, Fits, Room, LastAtMost, NoneFits, SplitFlat,
           SplitLeaves, FirstHalf, SecondHalf, IsMid, SortOf, RoomTotal, Live, SplitKey;
      var h := hash(x.name);
      HalvedAt(flat, was, hash, size, p, List(), key, newBlock, h);
      if mid > 0 {
        HalvesAre(was, flat[p].block, newBlock, s, mid, size, Leaf(was, flat[p].block), stale);
        HalfRoom(s, Leaf(was, flat[p].block), size, hash, mid, |x.name|);
      }
      var put;
      if h >= key {
        put := PutInto(newBlock, x, p + 1);
      } else {
        put := PutInto(oldBlock, x, p);
      }
      ok := put;
    }

    /** The part of ext4_dir_dx_add_entry that splits the leaf. */
    method AddBySplit(i: nat, j: nat, x: Rec, stray: nat, stale: seq<Rec>, src: BlockSource)
      returns (err: Error, ghost how: Outcome, ghost s: seq<Rec>, ghost mid: nat, ghost key: nat, ghost block: nat)
      requires Valid() && Position(i, j) && HasRoom(i) && Supplied(src.supply) && x.name != [] && |x.name| < 256 && x.inode != 0
      requires LastAtMost(List(), hash(x.name), Here(i, j))
      modifies this, src
      ensures IndexOk() && err == (if old(src.supply) == [] then ENOSPC else EOK) && (how == Refused <==> err == ENOSPC)
      ensures how == Refused || how == Lost ==> Valid() && Names() == old(Names())
      ensures how == Put ==> Valid() && Names() == old(Names()) + multiset{(x.name, x.inode)}
      ensures how == Doubled ==> Names() >= old(Names()) + Bag(if s == [] then stale else old(LeafHere(Here(i, j))))
      ensures err == EOK ==> (how == Doubled <==> RoomTotal(Live(old(LeafHere(Here(i, j))))) <= size / 2)
      ensures err == EOK ==> SortOf(s, old(LeafHere(Here(i, j))), hash) && IsMid(s, size / 2, mid)
      ensures how == Lost <==> err == EOK && TooBig(x, s, hash, mid, size)
      ensures err == EOK ==> SplitPut(old(List()), old(leaves), old(Here(i, j)), List(), leaves, key, block, x, s, mid, stray, stale)
      ensures err == EOK ==> [block] + src.supply == old(src.supply)
      ensures how == Lost ==> size < 1056
      ensures err == EOK ==> EntryAdded(old(root), old(levels), old(nodes), i, j, DxEntry(key, block), root, nodes)
      ensures levels == old(levels) && (err != EOK ==> root == old(root) && nodes == old(nodes))
    {
      hide EntryAdded, Ordered, Flat, AllBag, Bag, LeafOk, InRange, Packed, Inserted, Fits, Room, LastAtMost, NoneFits, FirstHalf, SecondHalf, Live, RoomTotal,
           SortOf, IsMid, TooBig, SplitKey, PutIn, SplitPut;
      ghost var flat, was, p := List(), leaves, Here(i, j);
      LeafAt(root, levels, nodes, nodeLimit, i, j);
      LeafOkAt(flat, was, hash, size, p);
      var old_block := LeafBlock(i, j);
      var new_hash, new_block;
      how := Refused;
      err, new_hash, new_block, s, mid := SplitData(i, j, stray, stale, src);
      key, block := new_hash, new_block;
      if err == EOK {
        ghost var halves := leaves;
        ghost var put := PutInHalf(old_block, new_block, new_hash, x, flat, was, p, s, mid, stray, stale);
        SplitPutIs(flat, was, p, List(), halves, leaves, key, block, x, s, mid, stray, stale);
        how := if mid == 0 then Doubled else if put then Put else Lost;
        OnlyBehindFirst(x, s, hash, mid, size);
        if mid > 0 {
          LostOnlySmall(x, s, Leaf(was, flat[p].block), hash, mid, size);
        }
      }
    }

    /**
     ext4_dir_dx_add_entry.  It is refused just when the index or the directory cannot grow as far as needed.  Otherwise the
     directory has the name besides all others, except that after a split of the leaf it may be lost for want of room,
     and that a leaf at most half full is not split but copied.
     */
    method AddEntry(name: seq<Byte>, child: nat, kind: Byte, stray: nat, stale: seq<Rec>, src: BlockSource)
      returns (err: Error, ghost how: Outcome, ghost i: nat, ghost j: nat, ghost s: seq<Rec>, ghost mid: nat, ghost key: nat, ghost block: nat)
      requires Valid() && Supplied(src.supply) && name != [] && |name| < 256 && child != 0
      modifies this, src
      ensures IndexOk() && old(Position(i, j)) && LastAtMost(old(List()), hash(name), old(Here(i, j)))
      ensures var needed := (if old(HasRoom(i)) then 0 else 1) + if old(Crowded(Here(i, j), name)) then 1 else 0;
              err == if old(!HasRoom(i) && levels == 1 && |root| == rootLimit) || |old(src.supply)| < needed then ENOSPC else EOK
      ensures how == Refused <==> err == ENOSPC
      ensures how == Refused || how == Lost ==> Valid() && Names() == old(Names())
      ensures how == Put ==> Valid() && Names() == old(Names()) + multiset{(name, child)}
      ensures how == Doubled ==> Names() >= old(Names()) + Bag(if s == [] then stale else old(LeafHere(Here(i, j))))
      ensures err == EOK ==> (how == Doubled <==> old(Crowded(Here(i, j), name)) && RoomTotal(Live(old(LeafHere(Here(i, j))))) <= size / 2)
      ensures err == EOK && old(Crowded(Here(i, j), name)) ==> SortOf(s, old(LeafHere(Here(i, j))), hash) && IsMid(s, size / 2, mid)
      ensures how == Lost <==> err == EOK && old(Crowded(Here(i, j), name)) && TooBig(Rec(child, 0, kind, name), s, hash, mid, size)
      ensures how == Lost ==> size < 1056
      ensures err == EOK && old(Crowded(Here(i, j), name)) ==>
        && SplitPut(old(List()), old(leaves), old(Here(i, j)), List(), leaves, key, block, Rec(child, 0, kind, name), s, mid, stray, stale)
        && block == old(src.supply)[if old(HasRoom(i)) then 0 else 1]
      ensures err == EOK && !old(Crowded(Here(i, j), name)) ==>
        && List() == old(List()) && (old(HasRoom(i)) ==> root == old(root) && levels == old(levels) && nodes == old(nodes))
        && PutIn(old(leaves), List()[old(Here(i, j))].block, Rec(child, 0, kind, name), leaves)
      ensures err == EOK && !old(HasRoom(i)) && !old(Crowded(Here(i, j), name)) ==>
        IndexGrown(old(root), old(levels), old(nodes), i, old(src.supply)[0], root, levels, nodes)
      ensures err == EOK && old(HasRoom(i)) && old(Crowded(Here(i, j), name)) ==>
        EntryAdded(old(root), old(levels), old(nodes), i, j, DxEntry(key, block), root, nodes) && levels == old(levels)
    {
      hide IndexGrown, EntryAdded, PutIn, NodesOk, IndexOf, Ordered, Flat, AllBag, Bag, Room, LastAtMost, NoneFits, Live,
        RoomTotal, SortOf, IsMid, TooBig, SplitPut;
      var h := hash(name);
      var x := Rec(child, 0, kind, name);
      ghost var flat := List();
      var at, in_blk := GetLeaf(h);
      i, j, s, mid, how, key, block := at, in_blk, [], 0, Refused, 0, 0;
      ghost var p := Here(at, in_blk);
      LeafAt(root, levels, nodes, nodeLimit, at, in_blk);
      var leaf_block := LeafBlock(at, in_blk);
      err, at, in_blk := SplitIndex(at, in_blk, src);
      if err == EOK {
        LastBelow(flat, h, p);
        ListSorted(flat, leaves, hash, size);
        var ok := PutInto(leaf_block, x, p);
        how := Put;
        if !ok {
          err, how, s, mid, key, block := AddBySplit(at, in_blk, x, stray, stale, src);
        }
      }
    }

    /** ext4_dir_remove_entry of an indexed directory: exactly the name goes, and the index stays. */
    method RemoveEntry(name: seq<Byte>) returns (err: DirError, ghost inode: nat)
      requires Valid()
      modifies `leaves
      ensures Valid() && err == if exists n: nat :: (name, n) in old(Names()) then OK else NoEntry
      ensures err == NoEntry ==> leaves == old(leaves)
      ensures err == OK ==> old(Names()) == Names() + multiset{(name, inode)} && OneGone(old(leaves), leaves, name, inode)
    {
      hide Ordered, Flat, AllBag, Removed, LastAtMost, Norm;
      inode := 0;
      ghost var p;
      var found;
      found, p := FindEntry(name);
      if found == NotFound {
        return NoEntry, 0;
      }
      inode := found.inode;
      ghost var flat, was := List(), leaves;
      leaves := leaves[found.block := Removed(leaves[found.block], found.record)];
      NameTaken(flat, was, hash, size, p, found.record);
      err := OK;
    }

    /** The records of the leaf at a place of the list. */
    ghost function LeafHere(p: nat): seq<Rec>
      reads this
      requires p < |List()|
    {
      Leaf(leaves, List()[p].block)
    }

    /** No record of that leaf has room for the name. */
    ghost predicate Crowded(p: nat, name: seq<Byte>)
      reads this
      requires p < |List()|
    {
      NoneFits(LeafHere(p), Room(|name|))
    }
  }

  datatype Outcome = Refused | Put | Lost | Doubled

  datatype DirError = OK | NoEntry

  /** One record with the name has gone from its leaf. */
  ghost predicate OneGone(leaves: map<nat, seq<Rec>>, leaves': map<nat, seq<Rec>>, name: seq<Byte>, inode: nat) {
    exists b: nat, k: nat :: b in leaves && k < |leaves[b]| && leaves[b][k].inode == inode && leaves[b][k].name == name
                             && leaves' == leaves[b := Removed(leaves[b], k)]
  }

  /** The second half is the name's place, and has no room for it. */
  ghost predicate TooBig(x: Rec, s: seq<Rec>, hash: HashFn, mid: nat, size: nat) {
    0 < mid < |s| && hash(x.name) >= SplitKey(s, hash, mid) && RoomTotal(s[mid..]) + Room(|x.name|) > size
  }

  lemma OnlyBehindFirst(x: Rec, s: seq<Rec>, hash: HashFn, mid: nat, size: nat)
    ensures TooBig(x, s, hash, mid, size) ==> mid > 0
  {
  }

  /** The first half always has room for a name, the second just when the rest of its block suffices. */
  lemma HalfRoom(s: seq<Rec>, recs: seq<Rec>, size: nat, hash: HashFn, mid: nat, nameLen: nat)
    requires LeafOk(recs, size) && SortOf(s, recs, hash) && IsMid(s, size / 2, mid) && 0 < mid < |s| && size >= 1024 && nameLen < 256
    requires RoomTotal(s[..mid]) <= size && RoomTotal(s[mid..]) <= size && RoomTotal(s) <= size
    ensures !NoneFits(Packed(s[..mid], size), Room(nameLen))
    ensures NoneFits(Packed(s[mid..], size), Room(nameLen)) <==> RoomTotal(s[mid..]) + Room(nameLen) > size
    ensures RoomTotal(s[mid..]) < size - size / 2 + 264 && Room(nameLen) <= 264
  {
    hide RoomTotal, Live, Total, Room, SortOf, NoneFits, Packed;
    SortNames(s, recs, size, hash);
    HalvesRoom(s, size, mid);
    RoomAtMost(nameLen);
    RoomSome(nameLen);
    PackedFits(s[..mid], size, Room(nameLen));
    PackedFits(s[mid..], size, Room(nameLen));
  }

  lemma RoomSome(n: nat)
    ensures Room(n) > 0
  {
  }

  lemma LostOnlySmall(x: Rec, s: seq<Rec>, recs: seq<Rec>, hash: HashFn, mid: nat, size: nat)
    requires LeafOk(recs, size) && SortOf(s, recs, hash) && IsMid(s, size / 2, mid) && 0 < mid < |s| && size >= 1024 && |x.name| < 256
    ensures TooBig(x, s, hash, mid, size) ==> size < 1056
  {
    hide RoomTotal, Live, Total, Room, SortOf, NoneFits, Packed;
    HalvesFit(s, recs, size, hash, mid);
    HalfRoom(s, recs, size, hash, mid, |x.name|);
  }

  lemma HalvesAre(was: map<nat, seq<Rec>>, oldBlock: nat, newBlock: nat, s: seq<Rec>, mid: nat, size: nat, recs: seq<Rec>, stale: seq<Rec>)
    requires oldBlock != newBlock && 0 < mid < |s| && RoomTotal(s[..mid]) <= size && RoomTotal(s[mid..]) <= size
    ensures var leaves := SplitLeaves(was, oldBlock, newBlock, FirstHalf(s, mid, size, recs), SecondHalf(s, mid, size, stale));
            Leaf(leaves, oldBlock) == Packed(s[..mid], size) && Leaf(leaves, newBlock) == Packed(s[mid..], size)
  {
    hide RoomTotal, Packed;
  }

  lemma LeafOkAt(flat: seq<DxEntry>, leaves: map<nat, seq<Rec>>, hash: HashFn, size: nat, p: nat)
    requires Ordered(flat, leaves, hash, size) && p < |flat|
    ensures LeafOk(Leaf(leaves, flat[p].block), size)
  {
    assert LeafFits(flat, leaves, hash, size, p);
  }

  /** Where the two leaves stand after a split, and between which keys. */
  lemma HalvedAt(flat: seq<DxEntry>, was: map<nat, seq<Rec>>, hash: HashFn, size: nat, p: nat, flat': seq<DxEntry>, key: nat, block: nat, h: nat)
    requires Ordered(flat, was, hash, size) && LastAtMost(flat, h, p) && h < TOP && flat' == SplitFlat(flat, p, key, block)
    requires forall q :: 0 <= q < |flat| ==> flat[q].block != block
    ensures p < |flat| && LeafOk(Leaf(was, flat[p].block), size)
    ensures p + 1 < |flat'| && flat'[p] == flat[p] && flat'[p + 1] == DxEntry(key, block) && DistinctBlocks(flat')
    ensures flat[p].hash <= h && (h < key ==> h < KeyAfter(flat', p)) && h < KeyAfter(flat', p + 1)
  {
    hide LeafOk, InRange, Sorted;
    assert LeafFits(flat, was, hash, size, p);
    LastBelow(flat, h, p);
    BlocksApart(flat, p, key, block);
    assert p + 2 < |flat'| ==> flat'[p + 2] == flat[p + 1];
  }

  lemma BlocksApart(flat: seq<DxEntry>, p: nat, key: nat, block: nat)
    requires DistinctBlocks(flat) && p < |flat| && forall q :: 0 <= q < |flat| ==> flat[q].block != block
    ensures DistinctBlocks(SplitFlat(flat, p, key, block))
  {
  }

  lemma IsSortOf(s: seq<Rec>, recs: seq<Rec>, hash: HashFn)
    requires multiset(s) == multiset(Live(recs)) && ByHash(s, hash)
    ensures SortOf(s, recs, hash)
  {
  }

  lemma SortMid(s: seq<Rec>, recs: seq<Rec>, size: nat, hash: HashFn, mid: nat)
    requires LeafOk(recs, size) && SortOf(s, recs, hash) && IsMid(s, size / 2, mid) && size >= 1024
    ensures mid <= |s| && (mid > 0 ==> mid < |s|) && (mid > 0 <==> RoomTotal(Live(recs)) > size / 2)
    ensures RoomTotal(s) <= size && RoomTotal(s[..mid]) <= size && RoomTotal(s[mid..]) <= size
  {
    hide RoomTotal, Live, Total, Room;
    SortNames(s, recs, size, hash);
    MidInside(s, size / 2, mid);
    HalvesFit(s, recs, size, hash, mid);
  }

  lemma SortNames(s: seq<Rec>, recs: seq<Rec>, size: nat, hash: HashFn)
    requires LeafOk(recs, size) && SortOf(s, recs, hash)
    ensures forall i :: 0 <= i < |s| ==> |s[i].name| < 256 && s[i].inode != 0
  {
    hide Total, Room, Live;
    forall i | 0 <= i < |s| ensures |s[i].name| < 256 && s[i].inode != 0 {
      assert s[i] in multiset(s) && s[i] in Live(recs);
      LiveHas(recs, s[i]);
    }
  }

  /** The first record with room has taken x. */
  ghost predicate FirstFit(recs: seq<Rec>, x: Rec, recs': seq<Rec>) {
    exists at :: 0 <= at < |recs| && Fits(recs[at], Room(|x.name|)) && NoneFits(recs[..at], Room(|x.name|)) && recs' == Inserted(recs, at, x)
  }

  /** ext4_dir_try_insert_entry on the records of a leaf */
  method InsertRec(recs: seq<Rec>, x: Rec) returns (ok: bool, recs': seq<Rec>, ghost at: nat)
    ensures ok == !NoneFits(recs, Room(|x.name|))
    ensures ok ==> at < |recs| && Fits(recs[at], Room(|x.name|)) && NoneFits(recs[..at], Room(|x.name|)) && recs' == Inserted(recs, at, x)
  {
    var k := 0;
    while k < |recs|
      invariant k <= |recs| && NoneFits(recs[..k], Room(|x.name|))
    {
      if Fits(recs[k], Room(|x.name|)) {
        return true, Inserted(recs, k, x), k;
      }
      k := k + 1;
    }
    ok, recs', at := false, recs, 0;
    assert recs[..k] == recs;
  }

  /** In the place of qsort: all that is known of the result is that it is sorted and has the same elements. */
  method SortByHash(recs: seq<Rec>, hash: HashFn) returns (s: seq<Rec>)
    ensures multiset(s) == multiset(recs) && ByHash(s, hash)
  {
    hide ByHash;
    s := [];
    NoneByHash(hash);
    for n := 0 to |recs|
      invariant multiset(s) == multiset(recs[..n]) && ByHash(s, hash)
    {
      var k := 0;
      while k < |s| && hash(s[k].name) <= hash(recs[n].name)
        invariant k <= |s| && forall a :: 0 <= a < k ==> hash(s[a].name) <= hash(recs[n].name)
      {
        k := k + 1;
      }
      SortedInsert(s, hash, k, recs[n]);
      Counted(recs, n);
      s := s[..k] + [recs[n]] + s[k..];
    }
    assert recs[..|recs|] == recs;
  }

  lemma NoneByHash(hash: HashFn)
    ensures ByHash([], hash)
  {
  }

  lemma Counted(recs: seq<Rec>, n: nat)
    requires n < |recs|
    ensures multiset(recs[..n + 1]) == multiset(recs[..n]) + multiset{recs[n]}
  {
    assert recs[..n + 1] == recs[..n] + [recs[n]];
  }

  lemma SortedInsert(s: seq<Rec>, hash: HashFn, k: nat, r: Rec)
    requires ByHash(s, hash) && k <= |s| && (k < |s| ==> hash(r.name) < hash(s[k].name))
    requires forall a :: 0 <= a < k ==> hash(s[a].name) <= hash(r.name)
    ensures ByHash(s[..k] + [r] + s[k..], hash) && multiset(s[..k] + [r] + s[k..]) == multiset(s) + multiset{r}
  {
    assert s == s[..k] + s[k..];
  }

  /** The loop that looks for half of the records by their size. */
  method FindMid(s: seq<Rec>, half: nat) returns (mid: nat)
    ensures IsMid(s, half, mid)
  {
    var current := 0;
    mid := 0;
    var i := 0;
    assert s[..0] == [];
    while i < |s|
      invariant i <= |s| && current == RoomTotal(s[..i]) <= half
    {
      assert s[..i + 1] == s[..i] + [s[i]] && s == s[..i + 1] + s[i + 1..];
      RoomConcat(s[..i], [s[i]]);
      RoomOne(s[i]);
      RoomConcat(s[..i + 1], s[i + 1..]);
      if current + Room(|s[i].name|) > half {
        return i;
      }
      current := current + Room(|s[i].name|);
      i := i + 1;
    }
    assert s[..i] == s;
  }

  lemma IndexShift(root: seq<DxEntry>, nodes: map<nat, seq<DxEntry>>, i: nat, j: nat)
    requires i < |root|
    ensures IndexOf(root, 1, nodes, i, j) == IndexOf(root, 1, nodes, i, 0) + j
  {
  }

  lemma InsertAt(entries: seq<DxEntry>, at: nat, x: DxEntry, s: seq<DxEntry>)
    requires at < |entries| && s == InsertEntry(entries, at, x)
    ensures |s| == |entries| + 1
    ensures forall k {:trigger s[k]} :: 0 <= k < |s| ==> s[k] == if k <= at then entries[k] else if k == at + 1 then x else entries[k - 1]
  {
  }

  lemma CutNode(root: seq<DxEntry>, nodes: map<nat, seq<DxEntry>>, i: nat, c: nat, block: nat, right: DxEntry, limit: nat)
    requires NodesOk(root, nodes, limit) && i < |root| && 0 < c < |Node(nodes, root[i].block)|
    requires right == DxEntry(Node(nodes, root[i].block)[c].hash, block)
    requires forall k :: 0 <= k < |root| ==> root[k].block != block
    ensures var e := Node(nodes, root[i].block);
            var nodes' := nodes[root[i].block := e[..c]][block := e[c..]];
            var root' := InsertEntry(root, i, right);
            && NodesOk(root', nodes', limit) && Flat(root', 1, nodes') == Flat(root, 1, nodes)
            && Node(nodes', root'[i].block) == e[..c] && Node(nodes', root'[i + 1].block) == e[c..]
            && IndexOf(root', 1, nodes', i, 0) == IndexOf(root, 1, nodes, i, 0)
            && IndexOf(root', 1, nodes', i + 1, 0) == IndexOf(root, 1, nodes, i, 0) + c
  {
    hide FlatOf, Norm, InsertEntry, NodesOk;
    var tops := Norm(root, 0);
    TopsOf(root, nodes, limit);
    NormAt(root, 0);
    NormInsert(root, 0, i, right);
    NodeSplit(tops, nodes, i, c, block);
    InsertAt(root, i, right, InsertEntry(root, i, right));
    InsertAt(tops, i, right, InsertEntry(tops, i, right));
    assert root != [] && InsertEntry(root, i, right)[i].block == root[i].block && InsertEntry(root, i, right)[i + 1].block == block;
    CutNodeOk(root, nodes, i, c, block, right, limit);
  }

  lemma CutNodeOk(root: seq<DxEntry>, nodes: map<nat, seq<DxEntry>>, i: nat, c: nat, block: nat, right: DxEntry, limit: nat)
    requires NodesOk(root, nodes, limit) && i < |root| && 0 < c < |Node(nodes, root[i].block)| && right.block == block
    requires forall k :: 0 <= k < |root| ==> root[k].block != block
    ensures var e := Node(nodes, root[i].block);
            var nodes' := nodes[root[i].block := e[..c]][block := e[c..]];
            NodesOk(InsertEntry(root, i, right), nodes', limit) && Node(nodes', root[i].block) == e[..c] && Node(nodes', block) == e[c..]
  {
    hide InsertEntry;
    var e, root' := Node(nodes, root[i].block), InsertEntry(root, i, right);
    InsertAt(root, i, right, root');
    var nodes' := nodes[root[i].block := e[..c]][block := e[c..]];
    assert Node(nodes', root[i].block) == e[..c] && Node(nodes', block) == e[c..];
    forall k | 0 <= k < |root'| ensures 1 <= |Node(nodes', root'[k].block)| <= limit {
      var was := if k <= i then k else if k == i + 1 then i else k - 1;
      assert 1 <= |Node(nodes, root[was].block)| <= limit;
      assert was != i ==> root[was].block != root[i].block;
    }
    forall a, b | 0 <= a < b < |root'| ensures root'[a].block != root'[b].block {
      assert root'[a].block == if a <= i then root[a].block else if a == i + 1 then block else root[a - 1].block;
      assert root'[b].block == if b <= i then root[b].block else if b == i + 1 then block else root[b - 1].block;
    }
  }

  /** ext4_dir_find_in_block on the records of a leaf */
  method FindRec(recs: seq<Rec>, name: seq<Byte>) returns (k: nat)
    ensures k <= |recs| && (k < |recs| <==> Lookup(recs, name) != 0)
    ensures k < |recs| ==> recs[k].name == name && recs[k].inode == Lookup(recs, name)
    ensures forall m :: 0 <= m < k ==> recs[m].inode == 0 || recs[m].name != name
  {
    k := 0;
    while k < |recs|
      invariant k <= |recs| && Lookup(recs, name) == Lookup(recs[k..], name)
      invariant forall m :: 0 <= m < k ==> recs[m].inode == 0 || recs[m].name != name
    {
      if recs[k].inode != 0 && recs[k].name == name {
        return;
      }
      k := k + 1;
    }
  }

  /** The block at a position is the one in the list. */
  lemma LeafAt(root: seq<DxEntry>, levels: nat, nodes: map<nat, seq<DxEntry>>, limit: nat, i: nat, j: nat)
    requires root != [] && levels <= 1 && (levels == 1 ==> NodesOk(root, nodes, limit))
    requires i < |root| && if levels == 0 then j == 0 else j < |Node(nodes, root[i].block)|
    ensures var flat, p := Flat(root, levels, nodes), IndexOf(root, levels, nodes, i, j);
            p < |flat| && flat[p].block == if levels == 0 then root[i].block else Node(nodes, root[i].block)[j].block
  {
    hide FlatOf, Norm;
    NormAt(root, 0);
    if levels == 1 {
      var tops := Norm(root, 0);
      assert tops[i].block == root[i].block;
      PartAt(tops, nodes, i);
      NormAt(Node(nodes, root[i].block), tops[i].hash);
      assert FlatOf(tops, nodes)[|FlatOf(tops[..i], nodes)| + j] == Part(tops[i], nodes)[j];
    }
  }

  lemma InNames(flat: seq<DxEntry>, leaves: map<nat, seq<Rec>>, p: nat, k: nat)
    requires p < |flat| && k < |Leaf(leaves, flat[p].block)| && Leaf(leaves, flat[p].block)[k].inode != 0
    ensures var r := Leaf(leaves, flat[p].block)[k]; (r.name, r.inode) in AllBag(flat, leaves)
  {
    hide AllBag, Bag;
    var r := Leaf(leaves, flat[p].block)[k];
    BagHas(Leaf(leaves, flat[p].block), r.name, r.inode);
    AllBagHas(flat, leaves, (r.name, r.inode));
  }

  /** A name that the search has not met is in no leaf. */
  lemma Nowhere(flat: seq<DxEntry>, leaves: map<nat, seq<Rec>>, hash: HashFn, size: nat, name: seq<Byte>, p0: nat, p: nat)
    requires HashOk(hash) && Ordered(flat, leaves, hash, size) && LastAtMost(flat, hash(name), p0) && p0 <= p < |flat|
    requires forall q :: p0 <= q <= p ==> Lookup(Leaf(leaves, flat[q].block), name) == 0
    requires p + 1 < |flat| ==> Low(flat[p + 1].hash) != hash(name)
    ensures forall inode: nat :: (name, inode) !in AllBag(flat, leaves)
  {
    hide AllBag, Bag, Lookup, Ordered, LastAtMost, Low;
    forall q | 0 <= q < |flat| ensures Lookup(Leaf(leaves, flat[q].block), name) == 0 {
      if Lookup(Leaf(leaves, flat[q].block), name) != 0 {
        OnlyHere(flat, leaves, hash, size, name, p0, q);
      }
    }
    forall inode: nat ensures (name, inode) !in AllBag(flat, leaves) {
      AllBagHas(flat, leaves, (name, inode));
      forall q | 0 <= q < |flat| ensures (name, inode) !in Bag(Leaf(leaves, flat[q].block)) {
        BagHas(Leaf(leaves, flat[q].block), name, inode);
        LookupIff(Leaf(leaves, flat[q].block), name);
      }
    }
  }

  lemma OneLeaf(leaf: nat, r: Rec, leaves: map<nat, seq<Rec>>, hash: HashFn, size: nat)
    requires HashOk(hash) && r.inode == 0 && r.len == size >= 1024 && |r.name| < 256 && leaves == map[leaf := [r]]
    ensures Ordered(Flat([DxEntry(0, leaf)], 0, map[]), leaves, hash, size) && AllBag(Flat([DxEntry(0, leaf)], 0, map[]), leaves) == multiset{}
  {
    var flat := [DxEntry(0, leaf)];
    assert Flat(flat, 0, map[]) == flat;
    TotalOne(r);
    RoomAtMost(|r.name|);
    assert LeafFits(flat, leaves, hash, size, 0);
    AllBagOne(flat[0], leaves);
    BagOne(r);
  }

  lemma ListSorted(flat: seq<DxEntry>, leaves: map<nat, seq<Rec>>, hash: HashFn, size: nat)
    requires Ordered(flat, leaves, hash, size)
    ensures Sorted(flat) && DistinctBlocks(flat) && |flat| > 0 && flat[0].hash == 0
  {
  }

  lemma TopsOf(root: seq<DxEntry>, nodes: map<nat, seq<DxEntry>>, limit: nat)
    requires NodesOk(root, nodes, limit)
    ensures NonEmpty(Norm(root, 0), nodes) && DistinctBlocks(Norm(root, 0))
  {
    NormAt(root, 0);
  }

  lemma LastBound(flat: seq<DxEntry>, h: nat, p: nat)
    requires LastAtMost(flat, h, p)
    ensures p < |flat| && flat[p].hash <= h
  {
  }

  /** Behind a part comes the next part, or nothing. */
  lemma FlatPast(tops: seq<DxEntry>, nodes: map<nat, seq<DxEntry>>, i: nat)
    requires i < |tops| && NonEmpty(tops, nodes) && Sorted(FlatOf(tops, nodes))
    ensures var n := |FlatOf(tops[..i], nodes)| + |Part(tops[i], nodes)|;
            if i + 1 < |tops| then n == |FlatOf(tops[..i + 1], nodes)| && n < |FlatOf(tops, nodes)| && FlatOf(tops, nodes)[n].hash == tops[i + 1].hash
            else n == |FlatOf(tops, nodes)|
  {
    hide Part, FlatOf, Sorted;
    FlatAround(tops, nodes, i);
    FlatEnd(tops, nodes, i + 1);
    if i + 1 < |tops| {
      assert tops[..i + 1] == tops[..i] + [tops[i]];
      FlatConcat(tops[..i], [tops[i]], nodes);
      FlatOne(tops[i], nodes);
      PartAt(tops, nodes, i + 1);
    }
  }
}

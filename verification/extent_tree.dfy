/**
 The extent tree of an inode as a value: leaves of extents under index nodes, each node
 in a block of its own except the root, which lies in the inode.  Flat, the extents in
 order, gives the tree its meaning as a map from logical to physical blocks.
 */
module ExtentTree {

  const EXT_MAX_BLOCKS := 0xFFFF_FFFF
  const EXT_INIT_MAX_LEN := 0x8000
  const EXT_UNWRITTEN_MAX_LEN := 0x7FFF

  /** blockCount is the 16-bit field as stored: above 0x8000 it marks an unwritten extent. */
  datatype Extent = Extent(firstBlock: nat, blockCount: nat, start: nat) {
    /** ext4_ext_get_actual_len */
    function Len(): nat { if blockCount <= EXT_INIT_MAX_LEN then blockCount else blockCount - EXT_INIT_MAX_LEN }

    /** ext4_ext_is_unwritten */
    predicate IsUnwritten() { blockCount > EXT_INIT_MAX_LEN }

    function End(): nat { firstBlock + Len() }

    ghost predicate Covers(b: nat) { firstBlock <= b < End() }

    ghost predicate Valid() {
      1 <= Len() && blockCount < 0x1_0000 && End() <= EXT_MAX_BLOCKS
    }
  }

  /** Setting bit 15 of a 16-bit length. */
  function MarkUnwritten(count: nat): nat { if count % 0x1_0000 >= 0x8000 then count else count + 0x8000 }

  /** What a logical block is mapped to. */
  datatype Mapping = Mapping(physical: nat, unwritten: bool)

  ghost function ExtentMap(e: Extent): map<nat, Mapping> {
    map b: nat | e.firstBlock <= b < e.End() && e.Covers(b) :: Mapping(e.start + (b - e.firstBlock), e.IsUnwritten())
  }

  /** The logical-to-physical map that a run of extents stands for. */
  ghost function MapOf(exts: seq<Extent>): map<nat, Mapping> {
    if exts == [] then map[] else ExtentMap(exts[0]) + MapOf(exts[1..])
  }

  /** Valid extents in ascending order, none overlapping the next. */
  ghost predicate Sorted(exts: seq<Extent>) {
    && (forall i :: 0 <= i < |exts| ==> exts[i].Valid())
    && forall i, j :: 0 <= i < j < |exts| ==> exts[i].End() <= exts[j].firstBlock
  }

  datatype Tree =
    | Leaf(blk: nat, max: nat, exts: seq<Extent>)
    | Node(blk: nat, max: nat, entries: seq<Entry>)

  datatype Entry = Entry(key: nat, child: Tree)

  ghost function Flat(t: Tree): seq<Extent>
    decreases t, 0
  {
    match t
    case Leaf(_, _, exts) => exts
    case Node(_, _, entries) => FlatAll(entries)
  }

  ghost function FlatAll(entries: seq<Entry>): seq<Extent>
    decreases entries, 0
  {
    if entries == [] then [] else FlatEntry(entries[0]) + FlatAll(entries[1..])
  }

  ghost function FlatEntry(e: Entry): seq<Extent>
    decreases e, 0
  {
    Flat(e.child)
  }

  /** n physical blocks from start on. */
  ghost function Run(start: nat, n: nat): seq<nat> { seq(n, i requires 0 <= i => start + i) }

  ghost function Range(start: nat, n: nat): multiset<nat> { multiset(Run(start, n)) }

  /** The physical blocks that extents map to. */
  ghost function DataOf(exts: seq<Extent>): multiset<nat> {
    if exts == [] then multiset{} else Range(exts[0].start, exts[0].Len()) + DataOf(exts[1..])
  }

  /** All blocks that a tree takes up: its nodes' own and its data, each as often as it occurs. */
  ghost function Owned(t: Tree): multiset<nat>
    decreases t, 0
  {
    multiset{t.blk} + if t.Leaf? then DataOf(t.exts) else OwnedAll(t.entries)
  }

  ghost function OwnedAll(entries: seq<Entry>): multiset<nat>
    decreases entries, 0
  {
    if entries == [] then multiset{} else OwnedEntry(entries[0]) + OwnedAll(entries[1..])
  }

  ghost function OwnedEntry(e: Entry): multiset<nat>
    decreases e, 0
  {
    Owned(e.child)
  }

  /** The first logical block under a node that is not empty. */
  function First(t: Tree): nat
    requires if t.Leaf? then t.exts != [] else t.entries != []
  {
    if t.Leaf? then t.exts[0].firstBlock else t.entries[0].key
  }

  /** A subtree of uniform depth whose nodes are neither empty nor over-full and whose keys are exact. */
  ghost predicate SubOk(t: Tree, depth: nat, blockMax: nat)
    decreases depth, 0
  {
    && t.max == blockMax
    && if depth == 0 then t.Leaf? && 1 <= |t.exts| <= blockMax
       else
         && t.Node? && 1 <= |t.entries| <= blockMax
         && forall i {:trigger t.entries[i]} :: 0 <= i < |t.entries| ==> EntryOk(t.entries[i], depth - 1, blockMax)
  }

  ghost predicate EntryOk(e: Entry, depth: nat, blockMax: nat)
    decreases depth, 1
  {
    SubOk(e.child, depth, blockMax) && e.key == First(e.child)
  }

  /** Capacities of the root in the inode and of a node in a block. */
  datatype Space = Space(rootMax: nat, blockMax: nat) {
    ghost predicate Valid() { 2 <= rootMax < blockMax }
  }

  /** The whole tree: like a subtree, but its root is smaller and may be an empty leaf. */
  ghost predicate TreeOk(t: Tree, depth: nat, sp: Space) {
    && t.max == sp.rootMax
    && (if depth == 0 then t.Leaf? && |t.exts| <= sp.rootMax
        else
          && t.Node? && 1 <= |t.entries| <= sp.rootMax
          && forall i {:trigger t.entries[i]} :: 0 <= i < |t.entries| ==> EntryOk(t.entries[i], depth - 1, sp.blockMax))
    && Sorted(Flat(t))
  }

  // ----- runs of extents -----

  lemma {:induction false} MapOfConcat(a: seq<Extent>, b: seq<Extent>)
    ensures MapOf(a + b) == MapOf(a) + MapOf(b)
    decreases |a|
  {
    hide ExtentMap;
    if a == [] {
      assert a + b == b;
    } else {
      assert (a + b)[1..] == a[1..] + b;
      MapOfConcat(a[1..], b);
    }
  }

  lemma {:induction false} MapOfCovers(exts: seq<Extent>, b: nat)
    ensures b in MapOf(exts) <==> exists i :: 0 <= i < |exts| && exts[i].Covers(b)
  {
    if exts != [] {
      MapOfCovers(exts[1..], b);
      if b in MapOf(exts[1..]) {
        var i :| 0 <= i < |exts[1..]| && exts[1..][i].Covers(b);
        assert exts[i + 1].Covers(b);
      } else {
        assert forall i :: 0 < i < |exts| ==> exts[i] == exts[1..][i - 1];
      }
    }
  }

  /** In a sorted run a block that an extent covers is mapped by that extent. */
  lemma {:induction false} MapOfAt(exts: seq<Extent>, i: nat, b: nat)
    requires Sorted(exts) && i < |exts| && exts[i].Covers(b)
    ensures b in MapOf(exts) && MapOf(exts)[b] == ExtentMap(exts[i])[b]
  {
    if i == 0 {
      assert forall j :: 0 <= j < |exts[1..]| ==> exts[1..][j] == exts[j + 1];
      MapOfCovers(exts[1..], b);
    } else {
      assert forall j :: 0 <= j < |exts[1..]| ==> exts[1..][j] == exts[j + 1];
      MapOfAt(exts[1..], i - 1, b);
    }
  }

  lemma {:induction false} FlatAllConcat(a: seq<Entry>, b: seq<Entry>)
    ensures FlatAll(a + b) == FlatAll(a) + FlatAll(b)
    decreases |a|
  {
    if a == [] {
      assert a + b == b;
    } else {
      assert (a + b)[1..] == a[1..] + b;
      FlatAllConcat(a[1..], b);
    }
  }

  lemma FlatAllOne(e: Entry)
    ensures FlatAll([e]) == Flat(e.child)
  {
    assert [e][1..] == [];
  }

  /** The entry at pos splits a node's extents into left, middle and right. */
  lemma FlatAllAt(entries: seq<Entry>, pos: nat)
    requires pos < |entries|
    ensures FlatAll(entries) == FlatAll(entries[..pos]) + Flat(entries[pos].child) + FlatAll(entries[pos + 1..])
  {
    hide FlatAll;
    var e, right := entries[pos], entries[pos + 1..];
    assert entries == entries[..pos] + ([e] + right);
    FlatAllConcat(entries[..pos], [e] + right);
    FlatAllConcat([e], right);
    FlatAllOne(e);
  }

  lemma {:induction false} SubFirst(t: Tree, depth: nat, blockMax: nat)
    requires SubOk(t, depth, blockMax)
    ensures Flat(t) != [] && First(t) == Flat(t)[0].firstBlock
    decreases depth
  {
    if depth > 0 {
      assert EntryOk(t.entries[0], depth - 1, blockMax);
      SubFirst(t.entries[0].child, depth - 1, blockMax);
      assert Flat(t) == FlatEntry(t.entries[0]) + FlatAll(t.entries[1..]);
    }
  }

  lemma SortedParts(a: seq<Extent>, b: seq<Extent>)
    requires Sorted(a + b)
    ensures Sorted(a) && Sorted(b)
    ensures forall i, j :: 0 <= i < |a| && 0 <= j < |b| ==> a[i].End() <= b[j].firstBlock
  {
    assert forall i :: 0 <= i < |a| ==> a[i] == (a + b)[i];
    assert forall j :: 0 <= j < |b| ==> b[j] == (a + b)[|a| + j];
  }

  lemma SortedJoin(a: seq<Extent>, b: seq<Extent>)
    requires Sorted(a) && Sorted(b)
    requires forall i, j :: 0 <= i < |a| && 0 <= j < |b| ==> a[i].End() <= b[j].firstBlock
    ensures Sorted(a + b)
  {
  }
}

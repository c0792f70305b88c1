/** Lemmas for the insertion of an extent at the end of a path. */
module ExtentInsert {
  import opened ExtentTree
  import opened ExtentZipper
  import opened ExtentSearch

  // ----- ext4_ext_correct_indexes -----

  /** The path with the keys that belong to it when the block under its end becomes first. */
  ghost function FixKeys(up: seq<Level>, first: nat): (r: seq<Level>)
    requires Positioned(up)
    ensures |r| == |up| && Positioned(r)
  {
    if up == [] then []
    else
      var rest := FixKeys(up[1..], first);
      [up[0].WithKey(TopFirst(rest, first))] + rest
  }

  lemma WithKeyFlat(l: Level, key: nat)
    requires l.HasPos()
    ensures var r := l.WithKey(key);
            && r.entries[..r.pos] == l.entries[..l.pos] && r.entries[r.pos + 1..] == l.entries[l.pos + 1..]
            && |r.entries| == |l.entries| && r.Key() == key && (l.Key() == key ==> r == l)
  {
    assert l.entries[l.pos] == Entry(l.Key(), l.entries[l.pos].child);
  }

  lemma {:induction false} FixKeysFlat(up: seq<Level>, first: nat)
    requires Positioned(up)
    ensures LeftFlat(FixKeys(up, first)) == LeftFlat(up) && RightFlat(FixKeys(up, first)) == RightFlat(up)
  {
    if up != [] {
      var rest := FixKeys(up[1..], first);
      FixKeysFlat(up[1..], first);
      WithKeyFlat(up[0], TopFirst(rest, first));
      assert FixKeys(up, first)[1..] == rest;
    }
  }

  lemma WithKeyOk(l: Level, depth: nat, old_first: nat, first: nat, max: nat, blockMax: nat)
    requires LevelOk(l, depth, old_first, max, blockMax)
    ensures LevelOk(l.WithKey(first), depth, first, max, blockMax)
  {
    hide EntryOk;
  }

  /** Correcting the keys makes a sound path sound for the new first block. */
  lemma {:induction false} FixKeysOk(up: seq<Level>, depth: nat, old_first: nat, first: nat, topMax: nat, blockMax: nat)
    requires PathOk(up, depth, old_first, topMax, blockMax)
    ensures PathOk(FixKeys(up, first), depth, first, topMax, blockMax)
  {
    hide LevelOk, PathOk, TopFirst;
    if up == [] {
      EmptyOk(depth, old_first, first, topMax, blockMax);
    } else {
      PathPositioned(up, depth, old_first, topMax, blockMax);
      var rest := FixKeys(up[1..], first);
      PathHead(up, depth, old_first, topMax, blockMax);
      FixKeysOk(up[1..], depth, old_first, first, blockMax, blockMax);
      WithKeyOk(up[0], depth + |up| - 1, TopFirst(up[1..], old_first), TopFirst(rest, first), topMax, blockMax);
      assert FixKeys(up, first)[1..] == rest;
      PathHead(FixKeys(up, first), depth, first, topMax, blockMax);
    }
  }

  lemma EmptyOk(depth: nat, old_first: nat, first: nat, topMax: nat, blockMax: nat)
    ensures PathOk([], depth, first, topMax, blockMax) && FixKeys([], first) == []
  {
  }

  /** PathOk, one level down. */
  lemma PathHead(up: seq<Level>, depth: nat, first: nat, topMax: nat, blockMax: nat)
    requires up != [] && Positioned(up)
    ensures PathOk(up, depth, first, topMax, blockMax) <==>
      && LevelOk(up[0], depth + |up| - 1, TopFirst(up[1..], first), topMax, blockMax)
      && PathOk(up[1..], depth, first, blockMax, blockMax)
  {
    hide LevelOk, TopFirst;
  }

  lemma PathTop(up: seq<Level>, depth: nat, first: nat, topMax: nat, blockMax: nat)
    requires up != [] && PathOk(up, depth, first, topMax, blockMax)
    ensures up[0].HasPos() && Positioned(up[1..]) && up[0].Key() == TopFirst(up[1..], first)
    ensures PathOk(up[1..], depth, first, blockMax, blockMax)
  {
  }

  lemma FixKeysStep(up: seq<Level>, first: nat)
    requires Positioned(up) && up != []
    ensures FixKeys(up, first) == [up[0].WithKey(TopFirst(FixKeys(up[1..], first), first))] + FixKeys(up[1..], first)
  {
  }

  lemma FixKeysTop(up: seq<Level>, first: nat, first': nat)
    requires Positioned(up) && up != [] && up[0].pos != 0
    ensures TopFirst(FixKeys(up, first), first) == TopFirst(up, first') == up[0].entries[0].key
  {
  }

  /** One turn of the correcting loop: level k gets the key, as those below it have. */
  lemma FixFrom(up: seq<Level>, k: nat, first: nat)
    requires Positioned(up) && k < |up| && TopFirst(FixKeys(up[k + 1..], first), first) == first
    ensures (up[..k + 1] + FixKeys(up[k + 1..], first))[k := up[k].WithKey(first)] == up[..k] + FixKeys(up[k..], first)
  {
    assert up[k..][1..] == up[k + 1..];
  }

  lemma FixHead(up: seq<Level>, k: nat, first: nat)
    requires Positioned(up) && k < |up|
    ensures FixKeys(up[k..], first)[0].pos == up[k].pos
    ensures up[k].pos == 0 ==> TopFirst(FixKeys(up[k..], first), first) == TopFirst(FixKeys(up[k + 1..], first), first)
  {
    assert up[k..][1..] == up[k + 1..] && up[k..][0] == up[k];
    assert FixKeys(up[k..], first)[1..] == FixKeys(up[k + 1..], first);
  }

  /** Above a level whose entry is not the first one no key changes. */
  lemma {:induction false} FixKeysStable(a: seq<Level>, b: seq<Level>, depth: nat, old_first: nat, first: nat, topMax: nat, blockMax: nat)
    requires Positioned(a) && Positioned(b) && b != [] && b[0].pos != 0
    requires PathOk(a + b, depth, old_first, topMax, blockMax)
    ensures FixKeys(a + b, first) == a + FixKeys(b, first)
  {
    hide PathOk, FixKeys, TopFirst;
    if a == [] {
      assert a + b == b && a + FixKeys(b, first) == FixKeys(b, first);
    } else {
      var rest := a[1..] + b;
      assert (a + b)[1..] == rest && (a + b)[0] == a[0];
      PathTop(a + b, depth, old_first, topMax, blockMax);
      FixKeysStable(a[1..], b, depth, old_first, first, blockMax, blockMax);
      TopFirstConcat(a[1..], FixKeys(b, first), first);
      TopFirstConcat(a[1..], b, old_first);
      FixKeysTop(b, first, old_first);
      FixKeysStep(a + b, first);
      WithKeyFlat(a[0], TopFirst(rest, old_first));
      assert [a[0]] + (a[1..] + FixKeys(b, first)) == a + FixKeys(b, first);
    }
  }

  // ----- where a new extent goes -----

  ghost predicate NoOverlap(exts: seq<Extent>, x: Extent) {
    forall i :: 0 <= i < |exts| ==> exts[i].End() <= x.firstBlock || x.End() <= exts[i].firstBlock
  }

  ghost predicate Behind(exts: seq<Extent>, x: Extent) { forall i :: 0 <= i < |exts| ==> x.End() <= exts[i].firstBlock }

  /** The index in the leaf where ext4_ext_insert_leaf makes room. */
  function InsertAt(exts: seq<Extent>, pos: int, x: Extent): nat
    requires -1 <= pos < |exts|
  {
    if pos < 0 then 0 else if x.firstBlock > exts[pos].firstBlock then pos + 1 else pos
  }

  lemma NoOverlapParts(a: seq<Extent>, b: seq<Extent>, x: Extent)
    requires NoOverlap(a + b, x)
    ensures NoOverlap(a, x) && NoOverlap(b, x)
  {
    assert forall i :: 0 <= i < |a| ==> a[i] == (a + b)[i];
    assert forall i :: 0 <= i < |b| ==> b[i] == (a + b)[|a| + i];
  }

  lemma AboveIsBehind(exts: seq<Extent>, x: Extent)
    requires Sorted(exts) && x.Valid() && NoOverlap(exts, x) && forall i :: 0 <= i < |exts| ==> x.firstBlock <= exts[i].firstBlock
    ensures Behind(exts, x)
  {
  }

  lemma LeafPlace(exts: seq<Extent>, pos: int, x: Extent)
    requires Sorted(exts) && x.Valid() && NoOverlap(exts, x) && ExtentFound(exts, pos, x.firstBlock)
    ensures -1 <= pos < |exts|
    ensures var i := InsertAt(exts, pos, x); i <= |exts| && Below(exts[..i], x.firstBlock) && Behind(exts[i..], x)
    ensures pos >= 0 ==> exts[pos].firstBlock != x.firstBlock
  {
    var i := InsertAt(exts, pos, x);
    assert forall j :: i <= j < |exts| ==> exts[j].Valid() && (exts[j].End() <= x.firstBlock || x.End() <= exts[j].firstBlock);
  }

  lemma BelowConcat(a: seq<Extent>, b: seq<Extent>, block: nat)
    requires Below(a, block) && Below(b, block)
    ensures Below(a + b, block)
  {
  }

  lemma BehindConcat(a: seq<Extent>, b: seq<Extent>, x: Extent)
    requires Behind(a, x) && Behind(b, x)
    ensures Behind(a + b, x)
  {
  }

  lemma CutInTwo(left: seq<Extent>, exts: seq<Extent>, right: seq<Extent>, i: nat)
    requires i <= |exts|
    ensures (left + exts[..i]) + (exts[i..] + right) == left + exts + right
  {
  }

  lemma InsertPlace(left: seq<Extent>, exts: seq<Extent>, right: seq<Extent>, pos: int, x: Extent)
    requires Sorted(left + exts + right) && x.Valid() && NoOverlap(left + exts + right, x)
    requires Below(left, x.firstBlock) && Above(right, x.firstBlock) && ExtentFound(exts, pos, x.firstBlock)
    ensures -1 <= pos < |exts|
    ensures var i := InsertAt(exts, pos, x);
            && i <= |exts| && Below(left + exts[..i], x.firstBlock) && Behind(exts[i..] + right, x)
            && (left + exts[..i]) + (exts[i..] + right) == left + exts + right
            && (pos >= 0 ==> exts[pos].firstBlock != x.firstBlock)
  {
    hide Sorted, NoOverlap, Below, Behind, ExtentFound;
    SortedParts(left + exts, right);
    SortedParts(left, exts);
    NoOverlapParts(left + exts, right, x);
    NoOverlapParts(left, exts, x);
    LeafPlace(exts, pos, x);
    AboveIsBehind(right, x);
    var i := InsertAt(exts, pos, x);
    BelowConcat(left, exts[..i], x.firstBlock);
    BehindConcat(exts[i..], right, x);
    CutInTwo(left, exts, right, i);
  }

  lemma InsertSorted(a: seq<Extent>, x: Extent, b: seq<Extent>)
    requires Sorted(a + b) && x.Valid() && Below(a, x.firstBlock) && Behind(b, x)
    ensures Sorted(a + [x] + b)
  {
    SortedParts(a, b);
    SortedJoin(a, [x]);
    SortedJoin(a + [x], b);
  }

  lemma Apart(exts: seq<Extent>, x: Extent)
    requires Below(exts, x.firstBlock) || Behind(exts, x)
    ensures MapOf(exts).Keys !! ExtentMap(x).Keys
  {
    hide MapOf;
    forall k | k in ExtentMap(x) ensures k !in MapOf(exts) {
      MapOfCovers(exts, k);
    }
  }

  lemma MapOfOne(x: Extent)
    ensures MapOf([x]) == ExtentMap(x)
  {
    assert [x][1..] == [];
  }

  /** One more extent that overlaps none adds its blocks to the map and changes no other. */
  lemma InsertMap(a: seq<Extent>, x: Extent, b: seq<Extent>)
    requires Below(a, x.firstBlock) && Behind(b, x)
    ensures MapOf(a + [x] + b) == MapOf(a + b) + ExtentMap(x) && MapOf(a + b).Keys !! ExtentMap(x).Keys
  {
    hide MapOf, ExtentMap;
    MapOfConcat(a, b);
    MapOfConcat(a + [x], b);
    MapOfConcat(a, [x]);
    MapOfOne(x);
    Apart(a, x);
    Apart(b, x);
  }

  // ----- merging -----

  /** ext4_ext_can_append */
  predicate CanAppend(e: Extent, n: Extent) {
    && e.start + e.Len() == n.start
    && e.Len() + n.Len() <= (if e.IsUnwritten() then EXT_UNWRITTEN_MAX_LEN else EXT_INIT_MAX_LEN)
    && e.firstBlock + e.Len() == n.firstBlock
  }

  /** ext4_ext_can_prepend */
  predicate CanPrepend(e: Extent, n: Extent) {
    && n.start + n.Len() == e.start
    && e.Len() + n.Len() <= (if e.IsUnwritten() then EXT_UNWRITTEN_MAX_LEN else EXT_INIT_MAX_LEN)
    && n.firstBlock + n.Len() == e.firstBlock
  }

  /** The length field of a merged extent: the state of e is kept. */
  function MergedCount(e: Extent, n: Extent): nat {
    if e.IsUnwritten() then MarkUnwritten(e.Len() + n.Len()) else e.Len() + n.Len()
  }

  function Appended(e: Extent, n: Extent): Extent { e.(blockCount := MergedCount(e, n)) }

  /** The source lowers the first block and leaves the physical start as it was. */
  function Prepended(e: Extent, n: Extent): Extent { e.(firstBlock := n.firstBlock, blockCount := MergedCount(e, n)) }

  /** Appending adds the new blocks at their places; they take the state of the extent they join. */
  lemma AppendMap(e: Extent, n: Extent)
    requires e.Valid() && n.Valid() && CanAppend(e, n)
    ensures Appended(e, n).Valid() && Appended(e, n).End() == n.End()
    ensures Appended(e, n).IsUnwritten() == e.IsUnwritten()
    ensures ExtentMap(Appended(e, n)) == ExtentMap(e) + map b | b in ExtentMap(n) :: Mapping(ExtentMap(n)[b].physical, e.IsUnwritten())
  {
    var m := Appended(e, n);
    assert m.Len() == e.Len() + n.Len();
    forall b: nat ensures m.Covers(b) <==> e.Covers(b) || n.Covers(b) {}
  }

  /** The prepending merge never maps the new blocks as asked: each one ends up len(n) blocks too far. */
  lemma PrependShifts(e: Extent, n: Extent, b: nat)
    requires e.Valid() && n.Valid() && CanPrepend(e, n) && (e.Covers(b) || n.Covers(b))
    ensures b in ExtentMap(Prepended(e, n))
    ensures ExtentMap(Prepended(e, n))[b].physical
         == (if e.Covers(b) then ExtentMap(e)[b] else ExtentMap(n)[b]).physical + n.Len()
  {
    var m := Prepended(e, n);
    assert m.Len() == e.Len() + n.Len();
    assert m.Covers(b);
  }

  /**
   What an insertion of x did to the extents of a tree: x came between a and b, or was merged
   into e, which stood between them.
   */
  datatype How =
    | Insert(a: seq<Extent>, b: seq<Extent>)
    | Append(a: seq<Extent>, e: Extent, b: seq<Extent>)
    | Prepend(a: seq<Extent>, e: Extent, b: seq<Extent>)
  {
    ghost function Old(): seq<Extent> { if Insert? then a + b else a + [e] + b }

    ghost function New(x: Extent): seq<Extent> {
      match this
      case Insert(_, _) => a + [x] + b
      case Append(_, _, _) => a + [Appended(e, x)] + b
      case Prepend(_, _, _) => a + [Prepended(e, x)] + b
    }

    ghost predicate Fits(x: Extent) {
      match this
      case Insert(_, _) => Below(a, x.firstBlock) && Behind(b, x)
      case Append(_, _, _) => CanAppend(e, x) && Behind(b, x)
      case Prepend(_, _, _) => CanPrepend(e, x) && Below(a, x.firstBlock)
    }
  }

  lemma SortedMiddle(a: seq<Extent>, e: Extent, b: seq<Extent>)
    requires Sorted(a + [e] + b)
    ensures Sorted(a) && Sorted(b) && e.Valid() && Below(a, e.firstBlock) && Behind(b, e)
  {
    SortedParts(a + [e], b);
    SortedParts(a, [e]);
    assert [e][0] == e && (a + [e])[|a|] == e;
  }

  lemma SortedAround(a: seq<Extent>, e: Extent, b: seq<Extent>)
    requires Sorted(a) && Sorted(b) && e.Valid() && Below(a, e.firstBlock) && Behind(b, e)
    requires forall i, j :: 0 <= i < |a| && 0 <= j < |b| ==> a[i].End() <= b[j].firstBlock
    ensures Sorted(a + [e] + b)
  {
    SortedJoin(a, [e]);
    SortedJoin(a + [e], b);
  }

  /** Inserting and appending keep the extents sorted and apart. */
  lemma HowSorted(how: How, x: Extent)
    requires Sorted(how.Old()) && x.Valid() && how.Fits(x) && !how.Prepend?
    ensures Sorted(how.New(x))
  {
    match how
    case Insert(a, b) => InsertSorted(a, x, b);
    case Append(a, e, b) =>
      SortedMiddle(a, e, b);
      AppendMap(e, x);
      SortedParts(a + [e], b);
      SortedAround(a, Appended(e, x), b);
    case Prepend(_, _, _) =>
  }

  /** The state a newly mapped block gets: its own, unless the blocks were appended to an existing extent. */
  ghost function NewBlocks(how: How, x: Extent): map<nat, Mapping> {
    map b | b in ExtentMap(x) ::
      Mapping(ExtentMap(x)[b].physical, if how.Append? then how.e.IsUnwritten() else x.IsUnwritten())
  }

  lemma MapOfMiddle(a: seq<Extent>, e: Extent, b: seq<Extent>)
    ensures MapOf(a + [e] + b) == MapOf(a) + ExtentMap(e) + MapOf(b)
  {
    hide MapOf, ExtentMap;
    MapOfConcat(a + [e], b);
    MapOfConcat(a, [e]);
    MapOfOne(e);
  }

  /** Inserting and appending map exactly the new blocks, where asked, and change no other mapping. */
  lemma HowMaps(how: How, x: Extent)
    requires Sorted(how.Old()) && x.Valid() && how.Fits(x) && !how.Prepend?
    ensures MapOf(how.New(x)) == MapOf(how.Old()) + NewBlocks(how, x)
    ensures MapOf(how.Old()).Keys !! ExtentMap(x).Keys
  {
    hide MapOf, ExtentMap;
    if how.Insert? {
      InsertMap(how.a, x, how.b);
      assert NewBlocks(how, x) == ExtentMap(x) by { ExtentMapState(x); }
    } else {
      var a, e, b := how.a, how.e, how.b;
      SortedMiddle(a, e, b);
      AppendMap(e, x);
      MapOfMiddle(a, e, b);
      MapOfMiddle(a, Appended(e, x), b);
      assert Below(a, x.firstBlock);
      Apart(a, x);
      Apart(b, x);
      ExtentsApart(e, x);
    }
  }

  lemma ExtentMapState(x: Extent)
    ensures forall b :: b in ExtentMap(x) ==> ExtentMap(x)[b].unwritten == x.IsUnwritten()
  {
  }

  lemma ExtentsApart(e: Extent, x: Extent)
    requires e.End() <= x.firstBlock || x.End() <= e.firstBlock
    ensures ExtentMap(e).Keys !! ExtentMap(x).Keys
  {
  }

  /** After the prepending merge no block of the new extent is mapped as asked, and no block of the old one as before. */
  lemma PrependBreaks(how: How, x: Extent, b: nat)
    requires Sorted(how.Old()) && x.Valid() && how.Fits(x) && how.Prepend? && (how.e.Covers(b) || x.Covers(b))
    ensures b in MapOf(how.New(x)) && (how.e.Covers(b) ==> b in MapOf(how.Old()))
    ensures MapOf(how.New(x))[b].physical
         == (if how.e.Covers(b) then MapOf(how.Old())[b].physical else ExtentMap(x)[b].physical) + x.Len()
  {
    var a, e, b' := how.a, how.e, how.b;
    SortedMiddle(a, e, b');
    PrependShifts(e, x, b);
    var m := Prepended(e, x);
    assert m.Len() == e.Len() + x.Len() && m.Valid() && m.End() == e.End();
    SortedParts(a + [e], b');
    SortedAround(a, m, b');
    assert (a + [m] + b')[|a|] == m;
    MapOfAt(a + [m] + b', |a|, b);
    if e.Covers(b) {
      assert (a + [e] + b')[|a|] == e;
      MapOfAt(a + [e] + b', |a|, b);
    }
  }

  /** The leaf's extents around position pos, together with all others. */
  lemma CutAround(left: seq<Extent>, exts: seq<Extent>, right: seq<Extent>, pos: nat, e: Extent)
    requires pos < |exts|
    ensures left + exts + right == (left + exts[..pos]) + [exts[pos]] + (exts[pos + 1..] + right)
    ensures left + exts[pos := e] + right == (left + exts[..pos]) + [e] + (exts[pos + 1..] + right)
  {
    assert exts == exts[..pos] + [exts[pos]] + exts[pos + 1..];
    assert exts[pos := e] == exts[..pos] + [e] + exts[pos + 1..];
  }

  /** Merging x at the end of the extent before it. */
  lemma MergeAppend(left: seq<Extent>, exts: seq<Extent>, right: seq<Extent>, pos: nat, x: Extent)
    returns (how: How)
    requires Sorted(left + exts + right) && x.Valid() && NoOverlap(left + exts + right, x)
    requires pos < |exts| && CanAppend(exts[pos], x)
    ensures how.Append? && how.Fits(x) && how.Old() == left + exts + right
    ensures how.New(x) == left + exts[pos := Appended(exts[pos], x)] + right
  {
    var a, e, b := left + exts[..pos], exts[pos], exts[pos + 1..] + right;
    CutAround(left, exts, right, pos, Appended(e, x));
    SortedMiddle(a, e, b);
    NoOverlapParts(a + [e], b, x);
    AboveIsBehind(b, x);
    how := Append(a, e, b);
  }

  /** Merging x before the extent behind it. */
  lemma MergePrepend(left: seq<Extent>, exts: seq<Extent>, right: seq<Extent>, pos: nat, x: Extent)
    returns (how: How)
    requires Sorted(left + exts + right) && x.Valid() && NoOverlap(left + exts + right, x)
    requires pos < |exts| && CanPrepend(exts[pos], x)
    ensures how.Prepend? && how.Fits(x) && how.Old() == left + exts + right
    ensures how.New(x) == left + exts[pos := Prepended(exts[pos], x)] + right
  {
    var a, e, b := left + exts[..pos], exts[pos], exts[pos + 1..] + right;
    CutAround(left, exts, right, pos, Prepended(e, x));
    SortedMiddle(a, e, b);
    NoOverlapParts(a + [e], b, x);
    NoOverlapParts(a, [e], x);
    BelowBefore(a, x, e.firstBlock);
    how := Prepend(a, e, b);
  }

  lemma BelowBefore(a: seq<Extent>, x: Extent, block: nat)
    requires Sorted(a) && NoOverlap(a, x) && Below(a, block) && x.End() == block
    ensures Below(a, x.firstBlock)
  {
    assert forall i :: 0 <= i < |a| ==> a[i].Valid() && a[i].End() <= block;
  }

  /** Making room for x in the leaf. */
  lemma MakeRoom(left: seq<Extent>, exts: seq<Extent>, right: seq<Extent>, pos: int, x: Extent)
    returns (how: How)
    requires Sorted(left + exts + right) && x.Valid() && NoOverlap(left + exts + right, x)
    requires Below(left, x.firstBlock) && Above(right, x.firstBlock) && ExtentFound(exts, pos, x.firstBlock)
    ensures -1 <= pos < |exts| && InsertAt(exts, pos, x) <= |exts| && (pos >= 0 ==> exts[pos].firstBlock != x.firstBlock)
    ensures how.Insert? && how.Fits(x) && how.Old() == left + exts + right
    ensures var i := InsertAt(exts, pos, x); how.New(x) == left + (exts[..i] + [x] + exts[i..]) + right
  {
    hide Sorted, NoOverlap, Below, Above, Behind, ExtentFound;
    InsertPlace(left, exts, right, pos, x);
    var i := InsertAt(exts, pos, x);
    RoomSeq(left, exts[..i], x, exts[i..], right);
    how := Insert(left + exts[..i], exts[i..] + right);
  }

  lemma RoomSeq(left: seq<Extent>, a: seq<Extent>, x: Extent, b: seq<Extent>, right: seq<Extent>)
    ensures (left + a) + [x] + (b + right) == left + (a + [x] + b) + right
  {
  }
}

/** The map from an inode's logical blocks to blocks of the device, through up to three levels of indirect blocks. */
module IndirectMap {
  import opened Arithmetic
  import opened BlockSupply

  const DIRECT_BLOCKS := 12
  const WORD := 0x1_0000_0000

  /** inode_blocks_per_level: data blocks below one entry of an indirect block of level k + 1 */
  function PerLevel(n: nat, k: nat): nat { if k == 0 then 1 else n * PerLevel(n, k - 1) }

  /** inode_block_limits: the first logical block that levels up to k do not reach */
  function Limit(n: nat, k: nat): nat { if k == 0 then DIRECT_BLOCKS else Limit(n, k - 1) + PerLevel(n, k) }

  // ----- the radix trees -----

  /**
   A place in one of the three trees: below the inode's root of level top, at height level (0: a data block), the
   index-th one from the left.
   */
  datatype Place = Place(top: nat, level: nat, index: nat)

  /** The inode's words and the indirect blocks on the device, n words each. */
  datatype Store = Store(n: nat, direct: seq<nat>, roots: seq<nat>, disk: map<nat, seq<nat>>)

  ghost predicate InTree(p: Place) { 1 <= p.top <= 3 && p.level <= p.top }

  function Entry(disk: map<nat, seq<nat>>, blk: nat, i: nat): nat {
    if blk != 0 && blk in disk && i < |disk[blk]| then disk[blk][i] else 0
  }

  /** The block at a place, or 0. */
  ghost function At(s: Store, p: Place): nat
    requires s.n > 0 && |s.roots| == 3 && InTree(p)
    decreases p.top - p.level
  {
    if p.level == p.top then
      if p.index == 0 then s.roots[p.top - 1] else 0
    else
      Entry(s.disk, At(s, Place(p.top, p.level + 1, p.index / s.n)), p.index % s.n)
  }

  /** Every indirect block has n words, and no block is at two places. */
  ghost predicate Sound(s: Store) {
    && s.n > 0 && |s.roots| == 3 && |s.direct| == DIRECT_BLOCKS
    && (forall p: Place :: InTree(p) && p.level > 0 && At(s, p) != 0 ==> At(s, p) in s.disk && |s.disk[At(s, p)]| == s.n)
    && forall p: Place, q: Place :: InTree(p) && InTree(q) && p.level > 0 && q.level > 0 && At(s, p) != 0 && At(s, p) == At(s, q) ==> p == q
  }

  /** A block that no place has. */
  ghost predicate Unused(s: Store, blk: nat)
    requires s.n > 0 && |s.roots| == 3
  {
    blk != 0 && forall p: Place :: InTree(p) && p.level > 0 ==> At(s, p) != blk
  }

  /** The data block of a logical block that the inode's size covers; 0 for a hole. */
  ghost function Lookup(s: Store, iblock: nat): nat
    requires s.n > 0 && |s.roots| == 3 && |s.direct| == DIRECT_BLOCKS
  {
    if iblock < DIRECT_BLOCKS then s.direct[iblock]
    else if iblock < Limit(s.n, 3) then At(s, Target(s.n, iblock))
    else 0
  }

  /** The level of indirection of a logical block; 0 if it is out of reach. */
  function LevelOf(n: nat, iblock: nat): (l: nat)
    ensures l <= 3 && (l == 0 <==> iblock >= Limit(n, 3))
    ensures l > 0 ==> iblock < Limit(n, l) && (l > 1 ==> iblock >= Limit(n, l - 1))
  {
    LimitsGrow(n);
    if iblock < Limit(n, 1) then 1 else if iblock < Limit(n, 2) then 2 else if iblock < Limit(n, 3) then 3 else 0
  }

  lemma LimitsGrow(n: nat)
    ensures Limit(n, 0) <= Limit(n, 1) <= Limit(n, 2) <= Limit(n, 3)
  {
  }

  /** The place of a logical block that is reached through indirect blocks. */
  ghost function Target(n: nat, iblock: nat): (p: Place)
    requires DIRECT_BLOCKS <= iblock < Limit(n, 3)
    ensures InTree(p)
  {
    var l := LevelOf(n, iblock);
    Place(l, 0, iblock - Limit(n, l - 1))
  }

  /** The place at some height above a logical block's own. */
  ghost function Above(n: nat, top: nat, off: nat, level: nat): (p: Place)
    requires n > 0
    ensures p.top == top && p.level == level
  {
    PerPositive(n, level);
    Place(top, level, off / PerLevel(n, level))
  }

  lemma {:induction false} PerPositive(n: nat, k: nat)
    requires n > 0
    ensures PerLevel(n, k) > 0
  {
    if k > 0 {
      PerPositive(n, k - 1);
    }
  }

  // ----- arithmetic of levels -----

  /** Dividing in two steps is dividing by the product, and the remainder of the product knows the digit. */
  lemma Digits(a: nat, p: nat, n: nat)
    requires p > 0 && n > 0
    ensures n * p > 0 && a / (n * p) == a / p / n && a % (n * p) / p == a / p % n && a % (n * p) % p == a % p
  {
    Parts(a, p);
    Parts(a / p, n);
    var q, high, d, r := a / p, a / p / n, a / p % n, a % p;
    Compose(a, q, high, d, r, n, p);
    Joined(high, d, r, n * p, p, a);
  }

  lemma Parts(a: nat, p: nat)
    requires p > 0
    ensures a == a / p * p + a % p && a % p < p
  {
  }

  lemma Joined(high: nat, d: nat, r: nat, np: nat, p: nat, a: nat)
    requires p > 0 && r < p && d * p + r < np && a == high * np + (d * p + r)
    ensures a / np == high && a % np / p == d && a % np % p == r
  {
    var low := d * p + r;
    DivMod(high, low, np);
    DivMod(d, r, p);
  }

  lemma Compose(a: nat, q: nat, high: nat, d: nat, r: nat, n: nat, p: nat)
    requires a == q * p + r && q == high * n + d && d < n && r < p
    ensures a == high * (n * p) + (d * p + r) && d * p + r < n * p
  {
    Spread(high, d, n, p);
    Multiples(d, n, p);
  }

  lemma Spread(high: nat, d: nat, n: nat, p: nat)
    ensures (high * n + d) * p == high * (n * p) + d * p
  {
    assert (high * n + d) * p == (high * n) * p + d * p;
    assert (high * n) * p == high * (n * p);
  }

  /** The next place down is the child at the digit that the walk computes. */
  lemma Down(n: nat, top: nat, off: nat, level: nat)
    requires n > 0 && level < top
    ensures PerLevel(n, level) > 0 && PerLevel(n, level + 1) > 0
    ensures Above(n, top, off, level).index / n == Above(n, top, off, level + 1).index
    ensures Above(n, top, off, level).index % n == off % PerLevel(n, level + 1) / PerLevel(n, level)
    ensures off % PerLevel(n, level + 1) % PerLevel(n, level) == off % PerLevel(n, level)
  {
    PerPositive(n, level);
    Digits(off, PerLevel(n, level), n);
  }

  // ----- what changing one word does -----

  /** A block that no place has may be filled without a change. */
  lemma {:induction false} AtFresh(s: Store, blk: nat, words: seq<nat>, p: Place)
    requires s.n > 0 && |s.roots| == 3 && Unused(s, blk) && InTree(p)
    ensures At(s.(disk := s.disk[blk := words]), p) == At(s, p)
    decreases p.top - p.level
  {
    if p.level < p.top {
      AtFresh(s, blk, words, Place(p.top, p.level + 1, p.index / s.n));
    }
  }

  function WithRoot(s: Store, top: nat, blk: nat): Store
    requires 1 <= top <= 3 && |s.roots| == 3
  {
    var roots: seq<nat> := s.roots[top - 1 := blk];
    s.(roots := roots)
  }

  /** A block of zeros behind an empty root. */
  lemma {:induction false} AtRoot(s: Store, top: nat, blk: nat, p: Place)
    requires Sound(s) && 1 <= top <= 3 && s.roots[top - 1] == 0 && InTree(p)
    requires blk != 0 && Unused(s, blk) && blk in s.disk && forall i :: 0 <= i < |s.disk[blk]| ==> s.disk[blk][i] == 0
    ensures At(WithRoot(s, top, blk), p) == if p == Place(top, top, 0) then blk else At(s, p)
    decreases p.top - p.level
  {
    if p.level < p.top {
      AtRoot(s, top, blk, Place(p.top, p.level + 1, p.index / s.n));
    }
  }

  ghost predicate Zeros(s: Store, blk: nat) { blk in s.disk && |s.disk[blk]| == s.n && forall i :: 0 <= i < s.n ==> s.disk[blk][i] == 0 }

  /** Writing word i of the indirect block at place q. */
  function WithWord(s: Store, blk: nat, i: nat, v: nat): Store
    requires blk in s.disk && i < |s.disk[blk]|
  {
    var words: seq<nat> := s.disk[blk][i := v];
    s.(disk := s.disk[blk := words])
  }

  lemma {:induction false} AtWord(s: Store, c: Place, v: nat, p: Place)
    requires Sound(s) && InTree(c) && c.level < c.top && InTree(p)
    requires At(s, Place(c.top, c.level + 1, c.index / s.n)) != 0
    requires c.level > 0 ==> At(s, c) == 0 && Unused(s, v) && Zeros(s, v)
    ensures var blk := At(s, Place(c.top, c.level + 1, c.index / s.n));
            At(WithWord(s, blk, c.index % s.n, v), p) == if p == c then v else At(s, p)
    decreases p.top - p.level
  {
    hide At;
    var cup := Place(c.top, c.level + 1, c.index / s.n);
    var s' := WithWord(s, At(s, cup), c.index % s.n, v);
    AtUnfold(s, p);
    AtUnfold(s', p);
    if p.level < p.top {
      var up := Place(p.top, p.level + 1, p.index / s.n);
      AtWord(s, c, v, up);
      if up == c {
        assert At(s, p) == 0;
      } else if up == cup {
        AtUnfold(s, c);
        SameChild(p.index, c.index, s.n);
      }
    }
  }

  lemma AtUnfold(s: Store, p: Place)
    requires s.n > 0 && |s.roots| == 3 && InTree(p)
    ensures p.level == p.top ==> At(s, p) == if p.index == 0 then s.roots[p.top - 1] else 0
    ensures p.level < p.top ==> At(s, p) == Entry(s.disk, At(s, Place(p.top, p.level + 1, p.index / s.n)), p.index % s.n)
  {
  }

  lemma SameChild(a: nat, b: nat, n: nat)
    requires n > 0 && a / n == b / n
    ensures a % n == b % n <==> a == b
  {
  }

  function Blank(s: Store, blk: nat): Store {
    s.(disk := s.disk[blk := seq(s.n, _ => 0)])
  }

  /** A zeroed block stays sound at no place, and the places stay as they are. */
  lemma BlankKeeps(s: Store, blk: nat)
    requires Sound(s) && Unused(s, blk)
    ensures Sound(Blank(s, blk)) && Unused(Blank(s, blk), blk) && Zeros(Blank(s, blk), blk)
    ensures forall p: Place :: InTree(p) ==> At(Blank(s, blk), p) == At(s, p)
  {
    hide At;
    forall p: Place | InTree(p) ensures At(Blank(s, blk), p) == At(s, p) {
      AtFresh(s, blk, seq(s.n, _ => 0), p);
    }
  }

  /** Exactly one place differs, and it has blk. */
  ghost predicate OnePlace(s: Store, s': Store, c: Place, blk: nat) {
    && s.n > 0 && |s.roots| == 3 && s'.n == s.n && |s'.roots| == 3 && s'.direct == s.direct
    && forall p: Place :: InTree(p) ==> At(s', p) == if p == c then blk else At(s, p)
  }

  lemma RootHung(s: Store, top: nat, blk: nat)
    requires Sound(s) && 1 <= top <= 3 && s.roots[top - 1] == 0 && Unused(s, blk)
    ensures var s' := WithRoot(Blank(s, blk), top, blk); Sound(s') && OnePlace(s, s', Place(top, top, 0), blk)
  {
    hide At;
    BlankKeeps(s, blk);
    var z := Blank(s, blk);
    forall p: Place | InTree(p) ensures At(WithRoot(z, top, blk), p) == if p == Place(top, top, 0) then blk else At(s, p) {
      AtRoot(z, top, blk, p);
    }
  }

  /** The indirect block above a place gets a new, empty child there. */
  lemma ChildHung(s: Store, c: Place, blk: nat)
    requires Sound(s) && InTree(c) && 0 < c.level < c.top && At(s, c) == 0 && Unused(s, blk)
    requires At(s, Place(c.top, c.level + 1, c.index / s.n)) != 0
    ensures var up := At(s, Place(c.top, c.level + 1, c.index / s.n));
            && up in Blank(s, blk).disk && c.index % s.n < |Blank(s, blk).disk[up]|
            && var s' := WithWord(Blank(s, blk), up, c.index % s.n, blk); Sound(s') && OnePlace(s, s', c, blk)
  {
    hide At;
    BlankKeeps(s, blk);
    var z := Blank(s, blk);
    var up := At(s, Place(c.top, c.level + 1, c.index / s.n));
    forall p: Place | InTree(p) ensures At(WithWord(z, up, c.index % s.n, blk), p) == if p == c then blk else At(s, p) {
      AtWord(z, c, blk, p);
    }
  }

  /** A data block's number is written to the indirect block above it. */
  lemma DataHung(s: Store, c: Place, v: nat)
    requires Sound(s) && InTree(c) && c.level == 0
    requires At(s, Place(c.top, 1, c.index / s.n)) != 0
    ensures var up := At(s, Place(c.top, 1, c.index / s.n));
            && up in s.disk && c.index % s.n < |s.disk[up]|
            && var s' := WithWord(s, up, c.index % s.n, v); Sound(s') && OnePlace(s, s', c, v)
  {
    hide At;
    var up := At(s, Place(c.top, 1, c.index / s.n));
    forall p: Place | InTree(p) ensures At(WithWord(s, up, c.index % s.n, v), p) == if p == c then v else At(s, p) {
      AtWord(s, c, v, p);
    }
  }

  // ----- the path to one block -----

  /** Indirect blocks of heights up to level that the path to a block lacks. */
  ghost function Missing(s: Store, top: nat, off: nat, level: nat): nat
    requires s.n > 0 && |s.roots| == 3 && 1 <= top <= 3 && level <= top
  {
    if level == 0 then 0 else (if At(s, Above(s.n, top, off, level)) == 0 then 1 else 0) + Missing(s, top, off, level - 1)
  }

  /** Only places on the path, at this height or above, have changed, and those had no block. */
  ghost predicate Extended(s: Store, s': Store, top: nat, off: nat, level: nat) {
    && s.n > 0 && |s.roots| == 3 && s'.n == s.n && |s'.roots| == 3 && s'.direct == s.direct && 1 <= top <= 3
    && forall p: Place :: InTree(p) && (p.top != top || p.level < level || p != Above(s.n, top, off, p.level)) ==> At(s', p) == At(s, p)
  }

  /** The blocks the allocator will hand out are at no place, and different from each other. */
  ghost predicate Supplied(s: Store, supply: seq<nat>)
    requires s.n > 0 && |s.roots| == 3
  {
    && (forall i :: 0 <= i < |supply| ==> supply[i] < WORD && Unused(s, supply[i]))
    && forall i, j :: 0 <= i < j < |supply| ==> supply[i] != supply[j]
  }

  lemma OneMore(s0: Store, s: Store, s': Store, top: nat, off: nat, level: nat, blk: nat, supply: seq<nat>)
    requires Extended(s0, s, top, off, level + 1) && level <= top && OnePlace(s, s', Above(s0.n, top, off, level), blk)
    requires Supplied(s, supply) && (level > 0 ==> blk !in supply)
    ensures Extended(s0, s', top, off, level) && Supplied(s', supply)
  {
    hide At, Above;
  }

  lemma {:induction false} MissingSame(s: Store, s': Store, top: nat, off: nat, level: nat)
    requires Extended(s, s', top, off, level + 1) && level <= top
    ensures Missing(s', top, off, level) == Missing(s, top, off, level)
  {
    hide At, Above;
    if level > 0 {
      MissingSame(s, s', top, off, level - 1);
    }
  }

  lemma TopOfPath(n: nat, iblock: nat)
    requires n > 0 && DIRECT_BLOCKS <= iblock < Limit(n, 3)
    ensures var t := Target(n, iblock);
            && PerLevel(n, t.top) > 0 && Above(n, t.top, t.index, t.top).index == 0
            && t.index % PerLevel(n, t.top) == t.index && Above(n, t.top, t.index, 0) == t
  {
    hide PerLevel;
    var t := Target(n, iblock);
    PerPositive(n, t.top);
    assert t.index < PerLevel(n, t.top);
    DivMod(0, t.index, PerLevel(n, t.top));
    PerZero(n);
  }

  lemma PerZero(n: nat)
    ensures PerLevel(n, 0) == 1
  {
  }

  /** What a write of one logical block's number does to all lookups. */
  ghost predicate Mapped(s: Store, s': Store, iblock: nat, v: nat) {
    && s.n > 0 && |s.roots| == 3 && |s.direct| == DIRECT_BLOCKS && s'.n == s.n && |s'.roots| == 3 && |s'.direct| == DIRECT_BLOCKS
    && forall b: nat :: Lookup(s', b) == if b == iblock then v else Lookup(s, b)
  }

  ghost predicate SameMap(s: Store, s': Store) {
    && s.n > 0 && |s.roots| == 3 && |s.direct| == DIRECT_BLOCKS && s'.n == s.n && |s'.roots| == 3 && |s'.direct| == DIRECT_BLOCKS
    && forall b: nat :: Lookup(s', b) == Lookup(s, b)
  }

  lemma ExtendedSameMap(s: Store, s': Store, top: nat, off: nat, level: nat)
    requires Sound(s) && Extended(s, s', top, off, level) && level > 0
    ensures SameMap(s, s')
  {
    hide At, Above, Target;
    forall b: nat ensures Lookup(s', b) == Lookup(s, b) {
      if DIRECT_BLOCKS <= b < Limit(s.n, 3) {
        TargetIsData(s.n, b);
      }
    }
  }

  lemma TargetIsData(n: nat, b: nat)
    requires DIRECT_BLOCKS <= b < Limit(n, 3)
    ensures Target(n, b).level == 0 && Target(n, b).top == LevelOf(n, b)
  {
  }

  lemma TargetsDiffer(n: nat, a: nat, b: nat)
    requires DIRECT_BLOCKS <= a < Limit(n, 3) && DIRECT_BLOCKS <= b < Limit(n, 3)
    ensures Target(n, a) == Target(n, b) <==> a == b
  {
  }

  lemma DataMapped(s: Store, s': Store, s'': Store, top: nat, off: nat, iblock: nat, v: nat)
    requires Sound(s) && Extended(s, s', top, off, 1) && DIRECT_BLOCKS <= iblock < Limit(s.n, 3)
    requires OnePlace(s', s'', Target(s.n, iblock), v)
    ensures Mapped(s, s'', iblock, v)
  {
    hide At, Above, Target, Limit;
    ExtendedSameMap(s, s', top, off, 1);
    forall b: nat ensures Lookup(s'', b) == if b == iblock then v else Lookup(s, b) {
      if DIRECT_BLOCKS <= b < Limit(s.n, 3) {
        TargetsDiffer(s.n, iblock, b);
        assert Lookup(s', b) == Lookup(s, b);
      }
    }
  }

  // ----- the words that a lookup reads -----

  /** The reach of the three trees of n-word blocks. */
  function Reach3(n: nat): nat { DIRECT_BLOCKS + n + n * n + n * n * n }

  /** The words read on the way to a logical block, tree by tree. */
  ghost function WordOf(s: Store, iblock: nat): nat
    requires s.n > 0 && |s.roots| == 3 && |s.direct| == DIRECT_BLOCKS
  {
    var n, i1 := s.n, iblock - DIRECT_BLOCKS;
    var i2 := i1 - n;
    var i3 := i2 - n * n;
    if i1 < 0 then s.direct[iblock]
    else if i2 < 0 then Entry(s.disk, s.roots[0], i1)
    else if i3 < 0 then Entry(s.disk, Entry(s.disk, s.roots[1], Quotient(i2, n)), Rest(i2, n))
    else if iblock < Reach3(n) then
      Entry(s.disk, Entry(s.disk, Entry(s.disk, s.roots[2], Quotient(i3, n * n)), Rest(Quotient(i3, n), n)), Rest(i3, n))
    else 0
  }

  function Quotient(a: nat, b: nat): nat { if b == 0 then 0 else a / b }

  function Rest(a: nat, b: nat): nat { if b == 0 then 0 else a % b }

  lemma LimitIs(n: nat)
    ensures PerLevel(n, 0) == 1 && PerLevel(n, 1) == n && PerLevel(n, 2) == n * n && PerLevel(n, 3) == n * n * n
    ensures Limit(n, 0) == DIRECT_BLOCKS && Limit(n, 1) == DIRECT_BLOCKS + n && Limit(n, 2) == DIRECT_BLOCKS + n + n * n
    ensures Limit(n, 3) == Reach3(n)
  {
    assert PerLevel(n, 0) == 1;
    assert PerLevel(n, 1) == n * PerLevel(n, 0);
    assert PerLevel(n, 2) == n * PerLevel(n, 1);
    assert PerLevel(n, 3) == n * PerLevel(n, 2) == n * (n * n) == n * n * n;
  }

  lemma InOneBlock(a: nat, n: nat)
    requires n > 0 && a < n
    ensures a / n == 0 && a % n == a
  {
  }

  lemma QuotientBelow(a: nat, n: nat, m: nat)
    requires n > 0 && a < n * m
    ensures a / n < m
  {
    if a / n >= m {
      Parts(a, n);
      MulMono(m, a / n, n);
    }
  }

  lemma AtOne(s: Store, i: nat)
    requires s.n > 0 && |s.roots| == 3 && i < s.n
    ensures At(s, Place(1, 0, i)) == Entry(s.disk, s.roots[0], i)
  {
    InOneBlock(i, s.n);
    AtUnfold(s, Place(1, 0, i));
    AtUnfold(s, Place(1, 1, 0));
  }

  lemma AtTwo(s: Store, i: nat)
    requires s.n > 0 && |s.roots| == 3 && i < s.n * s.n
    ensures At(s, Place(2, 0, i)) == Entry(s.disk, Entry(s.disk, s.roots[1], i / s.n), i % s.n)
  {
    hide At;
    QuotientBelow(i, s.n, s.n);
    InOneBlock(i / s.n, s.n);
    AtUnfold(s, Place(2, 0, i));
    AtUnfold(s, Place(2, 1, i / s.n));
    AtUnfold(s, Place(2, 2, 0));
  }

  lemma AtThree(s: Store, i: nat)
    requires s.n > 0 && |s.roots| == 3 && i < s.n * s.n * s.n
    ensures At(s, Place(3, 0, i))
         == Entry(s.disk, Entry(s.disk, Entry(s.disk, s.roots[2], Quotient(i, s.n * s.n)), i / s.n % s.n), i % s.n)
  {
    hide At;
    var n := s.n;
    assert n * n * n == n * (n * n);
    QuotientBelow(i, n, n * n);
    QuotientBelow(i / n, n, n);
    Digits(i, n, n);
    InOneBlock(i / n / n, n);
    AtUnfold(s, Place(3, 0, i));
    AtUnfold(s, Place(3, 1, i / n));
    AtUnfold(s, Place(3, 2, i / n / n));
    AtUnfold(s, Place(3, 3, 0));
  }

  /** A lookup reads these words. */
  lemma LookupReads(s: Store, iblock: nat)
    requires s.n > 0 && |s.roots| == 3 && |s.direct| == DIRECT_BLOCKS
    ensures Lookup(s, iblock) == WordOf(s, iblock)
  {
    hide At, PerLevel, Limit;
    var n := s.n;
    LimitIs(n);
    if DIRECT_BLOCKS <= iblock < Limit(n, 3) {
      var l := LevelOf(n, iblock);
      if l == 1 {
        AtOne(s, iblock - DIRECT_BLOCKS);
      } else if l == 2 {
        AtTwo(s, iblock - DIRECT_BLOCKS - n);
      } else {
        AtThree(s, iblock - DIRECT_BLOCKS - n - n * n);
      }
    }
  }

  // ----- the inode -----

  ghost predicate Shaped(s: Store) { s.n > 0 && |s.roots| == 3 && |s.direct| == DIRECT_BLOCKS }

  lemma MoreBlocks(a: nat, b: nat, unit: nat)
    requires a <= b && unit > 0
    ensures (a + unit - 1) / unit <= (b + unit - 1) / unit
  {
    DivMono(a + unit - 1, b + unit - 1, unit);
  }

  lemma DivMono(a: nat, b: nat, unit: nat)
    requires a <= b && unit > 0
    ensures a / unit <= b / unit
  {
    if b / unit < a / unit {
      Parts(a, unit);
      Parts(b, unit);
      MulMono(b / unit + 1, a / unit, unit);
    }
  }

  lemma MulMono(a: nat, b: nat, unit: nat)
    requires a <= b
    ensures a * unit <= b * unit
  {
  }

  /** The data blocks of a range of logical blocks, in order, holes left out. */
  ghost function Held(s: Store, from: nat, end: nat): seq<nat>
    requires s.n > 0 && |s.roots| == 3 && |s.direct| == DIRECT_BLOCKS
    decreases end
  {
    if end <= from then []
    else Held(s, from, end - 1) + if Lookup(s, end - 1) == 0 then [] else [Lookup(s, end - 1)]
  }

  lemma HeldNone(s: Store, from: nat, to: nat)
    requires Shaped(s) && to <= from
    ensures Held(s, from, to) == []
  {
  }

  /** Blocks out of reach are holes. */
  lemma {:induction false} HeldBeyond(s: Store, from: nat, mid: nat, to: nat)
    requires Shaped(s) && from <= mid <= to && Limit(s.n, 3) < mid
    ensures Held(s, from, to) == Held(s, from, mid) && forall b: nat :: mid <= b ==> Lookup(s, b) == 0
  {
    BeyondDirect(s.n);
    if mid < to {
      HeldBeyond(s, from, mid, to - 1);
    }
  }

  lemma ReleasedOne(s0: Store, s1: Store, s2: Store, from: nat, i: nat, blk: nat)
    requires Shaped(s0) && Shaped(s1) && Shaped(s2) && Mapped(s1, s2, from + i, 0) && blk == Lookup(s1, from + i)
    requires forall b: nat :: Lookup(s1, b) == if from <= b < from + i then 0 else Lookup(s0, b)
    ensures forall b: nat :: Lookup(s2, b) == if from <= b < from + i + 1 then 0 else Lookup(s0, b)
    ensures Held(s0, from, from + i + 1) == Held(s0, from, from + i) + if blk == 0 then [] else [blk]
  {
    hide Lookup;
  }

  /** What an inode held is what it holds and what the holes of the range held. */
  lemma {:induction false} HeldSplit(s: Store, s': Store, from: nat, to: nat)
    requires Shaped(s) && Shaped(s') && from <= to
    requires forall b: nat :: Lookup(s', b) == if from <= b < to then 0 else Lookup(s, b)
    ensures Held(s', 0, to) + Held(s, from, to) == Held(s, 0, to)
  {
    hide Lookup;
    HeldSame(s, s', from);
    HeldHoles(s', from, to);
    HeldJoined(s, from, to);
  }

  lemma {:induction false} HeldSame(s: Store, s': Store, to: nat)
    requires Shaped(s) && Shaped(s') && forall b: nat :: b < to ==> Lookup(s', b) == Lookup(s, b)
    ensures Held(s', 0, to) == Held(s, 0, to)
  {
    hide Lookup;
    if to > 0 {
      HeldSame(s, s', to - 1);
    }
  }

  lemma {:induction false} HeldHoles(s: Store, from: nat, to: nat)
    requires Shaped(s) && from <= to && forall b: nat :: from <= b < to ==> Lookup(s, b) == 0
    ensures Held(s, 0, to) == Held(s, 0, from)
  {
    hide Lookup;
    if from < to {
      HeldHoles(s, from, to - 1);
    }
  }

  lemma {:induction false} HeldJoined(s: Store, from: nat, to: nat)
    requires Shaped(s) && from <= to
    ensures Held(s, 0, from) + Held(s, from, to) == Held(s, 0, to)
  {
    hide Lookup;
    if from < to {
      HeldJoined(s, from, to - 1);
    }
  }

  class IndirectInode {
    const n: nat
    const limits: seq<nat>
    const perLevel: seq<nat>
    var size: nat
    var direct: seq<nat>
    var roots: seq<nat>
    var disk: map<nat, seq<nat>>

    /** The part of ext4_fs_init that computes the limits, and an inode with no blocks. */
    constructor (blockSize: nat)
      requires blockSize >= 4
      ensures Valid() && n == blockSize / 4 && size == 0 && forall b: nat :: Lookup(State(), b) == 0
    {
      hide PerLevel, Limit, At;
      n := blockSize / 4;
      var limit: seq<nat>, per: seq<nat> := [DIRECT_BLOCKS], [1];
      var i := 1;
      LevelsNext(blockSize / 4, 0);
      while i < 4
        invariant 1 <= i <= 4 && LimitsUpTo(blockSize / 4, limit, per, i)
      {
        LevelsNext(blockSize / 4, i - 1);
        per := per + [per[i - 1] * (blockSize / 4)];
        limit := limit + [limit[i - 1] + per[i]];
        i := i + 1;
      }
      limits, perLevel := limit, per;
      size, direct, roots, disk := 0, seq(DIRECT_BLOCKS, _ => 0), seq(3, _ => 0), map[];
      new;
      EmptyStore(State());
    }

    function State(): Store
      reads this
    {
      Store(n, direct, roots, disk)
    }

    ghost predicate Valid()
      reads this
    {
      Sound(State()) && LimitsUpTo(n, limits, perLevel, 4)
    }

    /** The search for the level of indirection. */
    method FindLevel(iblock: nat) returns (l: nat)
      requires Valid()
      ensures l == LevelOf(n, iblock)
    {
      hide PerLevel, At;
      l := 0;
      var i := 1;
      while i < 4 && l == 0
        invariant 1 <= i <= 4 && (l == 0 ==> i == 1 || iblock >= Limit(n, i - 1)) && (l > 0 ==> l == LevelOf(n, iblock))
      {
        if iblock < limits[i] {
          l := i;
          LimitsGrow(n);
        }
        i := i + 1;
      }
    }

    /** Where the walk begins in the topmost indirect block. */
    method FirstOffsets(iblock: nat, l: nat) returns (off: nat, inBlk: nat)
      requires Valid() && DIRECT_BLOCKS <= iblock < Limit(n, 3) && l == LevelOf(n, iblock)
      ensures Offsets(n, Target(n, iblock), l, off, inBlk)
    {
      hide PerLevel, Limit, At;
      TopOfPath(n, iblock);
      ghost var t := Target(n, iblock);
      Down(n, t.top, t.index, l - 1);
      off := iblock - limits[l - 1];
      inBlk := off / perLevel[l - 1];
    }

    /** Where it goes on, one level below. */
    method NextOffsets(ghost t: Place, l: nat, off: nat, ghost was: nat) returns (off': nat, inBlk: nat)
      requires Valid() && 0 < l < t.top <= 3 && Offsets(n, t, l + 1, off, was)
      ensures Offsets(n, t, l, off', inBlk)
    {
      hide PerLevel, Limit, Sound;
      Down(n, t.top, t.index, l);
      Down(n, t.top, t.index, l - 1);
      off' := off % perLevel[l];
      inBlk := off' / perLevel[l - 1];
    }

    /** ext4_fs_get_inode_dblk_idx for an inode without extents */
    method Get(iblock: nat) returns (err: Error, fblock: nat)
      requires Valid()
      ensures err == (if size > 0 && iblock >= Limit(n, 3) then EIO else EOK)
      ensures err == EOK ==> fblock == if size == 0 then 0 else Lookup(State(), iblock)
      ensures err == (if size > 0 && iblock >= Reach3(n) then EIO else EOK)
      ensures err == EOK && size > 0 ==> fblock == WordOf(State(), iblock)
    {
      hide PerLevel, Limit, At, Above, LevelOf, Target, Offsets, WordOf, Reach3, Lookup;
      GetReads(iblock);
      if size == 0 {
        return EOK, 0;
      }
      if iblock < DIRECT_BLOCKS {
        BeyondDirect(n);
        return EOK, direct[iblock];
      }
      var l := FindLevel(iblock);
      if l == 0 {
        return EIO, 0;
      }
      ghost var t := Target(n, iblock);
      PathOfTarget(State(), iblock);
      var off, inBlk := FirstOffsets(iblock, l);
      var current := roots[l - 1];
      if current == 0 {
        NothingBelow(State(), t.top, t.index, l, 0);
        return EOK, 0;
      }
      while l > 0
        invariant 0 <= l <= t.top && current == At(State(), Above(n, t.top, t.index, l)) && (l > 0 ==> current != 0)
        invariant l > 0 ==> Offsets(n, t, l, off, inBlk)
      {
        Child(State(), t, l - 1, off, inBlk);
        current := disk[current][inBlk];
        if current == 0 {
          NothingBelow(State(), t.top, t.index, l - 1, 0);
          return EOK, 0;
        }
        l := l - 1;
        if l == 0 {
          break;
        }
        off, inBlk := NextOffsets(t, l, off, inBlk);
      }
      fblock := current;
      err := EOK;
    }

    lemma GetReads(iblock: nat)
      requires Valid()
      ensures Lookup(State(), iblock) == WordOf(State(), iblock) && Limit(n, 3) == Reach3(n)
      ensures iblock < DIRECT_BLOCKS ==> Lookup(State(), iblock) == direct[iblock]
      ensures DIRECT_BLOCKS <= iblock < Limit(n, 3) ==> Lookup(State(), iblock) == At(State(), Target(n, iblock))
    {
      hide PerLevel, Limit, At, LevelOf, Target, WordOf, Reach3;
      LimitIs(n);
      LookupReads(State(), iblock);
    }

    /** The topmost indirect block, made if the inode has none. */
    method EnsureRoot(ghost t: Place, l: nat, src: BlockSource) returns (err: Error, current: nat)
      requires Valid() && Supplied(State(), src.supply) && 1 <= l == t.top <= 3
      requires PerLevel(n, l) > t.index
      modifies this, src
      ensures Valid() && size == old(size) && (err == EOK || err == ENOSPC)
      ensures Reached(old(State()), State(), t, l, current, old(src.supply), src.supply, err)
    {
      hide PerLevel, At, Above, Unused, Blank, WithRoot;
      TopIsRoot(State(), t);
      current := roots[l - 1];
      err := EOK;
      if current == 0 {
        var new_blk: nat;
        err, new_blk := src.Alloc();
        if err == EOK {
          ghost var was, supply := State(), old(src.supply);
          assert supply[0] == new_blk && src.supply == supply[1..];
          RootHung(was, l, new_blk);
          roots := roots[l - 1 := new_blk];
          disk := disk[new_blk := seq(n, _ => 0)];
          IsWithRoot(was, l, new_blk, State());
          Taking(was, State(), t, l, new_blk, supply);
          current := new_blk;
        }
      }
    }

    /** The next indirect block of the path below current, made if there is none. */
    method EnsureChild(ghost t: Place, l: nat, current: nat, ghost off: nat, inBlk: nat, src: BlockSource) returns (err: Error, child: nat)
      requires Valid() && Supplied(State(), src.supply) && 1 < l <= t.top <= 3 && Offsets(n, t, l, off, inBlk)
      requires current != 0 && current == At(State(), Above(n, t.top, t.index, l))
      modifies this, src
      ensures Valid() && size == old(size)
      ensures Reached(old(State()), State(), t, l - 1, child, old(src.supply), src.supply, err)
    {
      hide PerLevel, At, Above, Unused, Blank, WithWord, Offsets;
      Child(State(), t, l - 1, off, inBlk);
      child := disk[current][inBlk];
      err := EOK;
      if child == 0 {
        var new_blk: nat;
        err, new_blk := src.Alloc();
        if err == EOK {
          ghost var was, supply := State(), old(src.supply);
          assert supply[0] == new_blk && src.supply == supply[1..];
          InBlock(was, t, l, off, inBlk);
          ChildHung(was, Above(n, t.top, t.index, l - 1), new_blk);
          disk := disk[new_blk := seq(n, _ => 0)];
          var words: seq<nat> := disk[current][inBlk := new_blk];
          disk := disk[current := words];
          IsWithWord(was, new_blk, current, inBlk, State());
          Taking(was, State(), t, l - 1, new_blk, supply);
          child := new_blk;
        }
      }
    }

    /** The walk down to the last indirect block of the path, which makes those that are missing. */
    method Reach(iblock: nat, level: nat, src: BlockSource) returns (err: Error, current: nat, off: nat, inBlk: nat)
      requires Valid() && Supplied(State(), src.supply) && DIRECT_BLOCKS <= iblock < Limit(n, 3) && level == LevelOf(n, iblock)
      modifies this, src
      ensures Valid() && size == old(size) && err == if |old(src.supply)| < Lacking(old(State()), iblock) then ENOSPC else EOK
      ensures var t := Target(n, iblock);
              && Extended(old(State()), State(), t.top, t.index, 1)
              && (err == EOK ==> Offsets(n, t, 1, off, inBlk) && current != 0 && current == At(State(), Above(n, t.top, t.index, 1))
                                 && src.supply == old(src.supply)[Lacking(old(State()), iblock)..])
              && (err != EOK ==> src.supply == []) && PathMade(old(State()), State(), t, 1, old(src.supply))
    {
      hide PathMade, PerLevel, Limit, At, Above, LevelOf, Target, Offsets, Supplied, Reached, Missing, Extended, OnePlace, Taken;
      ghost var s0, supply0 := State(), src.supply;
      ghost var t := Target(n, iblock);
      PathOfTarget(s0, iblock);
      InReach(n, iblock);
      var l := level;
      off, inBlk := FirstOffsets(iblock, l);
      err, current := EnsureRoot(t, l, src);
      Begin(s0, t, supply0);
      Advance(s0, s0, State(), t, l, current, supply0, supply0, src.supply, err);
      PathMore(s0, s0, State(), t, l, current, supply0, supply0, src.supply, err);
      while err == EOK && l > 1
        invariant Valid() && size == old(size) && 1 <= l <= t.top
        invariant err == EOK ==> Supplied(State(), src.supply) && Offsets(n, t, l, off, inBlk) && current != 0
        invariant err == EOK ==> current == At(State(), Above(n, t.top, t.index, l)) && Taken(s0, t, l - 1, supply0, src.supply)
        invariant err != EOK ==> err == ENOSPC && |supply0| < Missing(s0, t.top, t.index, t.top)
        invariant Extended(s0, State(), t.top, t.index, l)
        invariant err == EOK ==> PathMade(s0, State(), t, l, supply0)
        invariant err != EOK ==> PathMade(s0, State(), t, 1, supply0) && src.supply == []
        decreases l, err == EOK
      {
        ghost var s, supply := State(), src.supply;
        err, current := EnsureChild(t, l, current, off, inBlk, src);
        Advance(s0, s, State(), t, l - 1, current, supply0, supply, src.supply, err);
        PathMore(s0, s, State(), t, l - 1, current, supply0, supply, src.supply, err);
        if err == EOK {
          l := l - 1;
          off, inBlk := NextOffsets(t, l, off, inBlk);
        }
      }
      ExtendedMore(s0, State(), t.top, t.index, l);
      LackingIs(s0, iblock);
    }

    /**
     ext4_fs_set_inode_data_block_index: the block is found under its number from now on and nothing else changes,
     just when there are blocks for what the path lacks; a number that takes more than 32 bits is cut off.
     */
    method Set(iblock: nat, fblock: nat, src: BlockSource) returns (err: Error)
      requires Valid() && Supplied(State(), src.supply)
      modifies this, src
      ensures Valid() && size == old(size)
      ensures err == if iblock >= Limit(n, 3) then EIO else if |old(src.supply)| < Lacking(old(State()), iblock) then ENOSPC else EOK
      ensures err == EOK ==> Mapped(old(State()), State(), iblock, fblock % WORD) && src.supply == old(src.supply)[Lacking(old(State()), iblock)..]
      ensures err != EOK ==> SameMap(old(State()), State())
      ensures err == ENOSPC ==> src.supply == []
      ensures if DIRECT_BLOCKS <= iblock < Limit(n, 3) then PathMade(old(State()), State(), Target(n, iblock), 1, old(src.supply))
              else roots == old(roots) && disk == old(disk)
    {
      hide PathMade, PerLevel, Limit, At, Above, LevelOf, Target, Offsets, Supplied, Missing, Extended, OnePlace, Mapped;
      ghost var s0 := State();
      BeyondDirect(n);
      if iblock < DIRECT_BLOCKS {
        direct := direct[iblock := fblock % WORD];
        DirectMapped(s0, State(), iblock, fblock % WORD);
        return EOK;
      }
      var l := FindLevel(iblock);
      if l == 0 {
        return EIO;
      }
      ghost var t := Target(n, iblock);
      PathOfTarget(s0, iblock);
      var current, off, inBlk;
      err, current, off, inBlk := Reach(iblock, l, src);
      ghost var s1 := State();
      ExtendedSameMap(s0, s1, t.top, t.index, 1);
      if err == EOK {
        PutData(t, current, off, inBlk, fblock % WORD);
        PathKept(s0, s1, State(), t, old(src.supply), t, fblock % WORD);
        DataMapped(s0, s1, State(), t.top, t.index, iblock, fblock % WORD);
      }
    }

    /** ext4_fs_release_inode_block: the logical block becomes a hole and its block is given back; indirect blocks stay. */
    method Release(iblock: nat) returns (err: Error, freed: nat)
      requires Valid()
      modifies this
      ensures Valid() && size == old(size) && err == if iblock >= Limit(n, 3) then EIO else EOK
      ensures freed == Lookup(old(State()), iblock) && Mapped(old(State()), State(), iblock, 0)
      ensures SameTrees(old(State()), State())
    {
      hide SameTrees, PerLevel, Limit, At, Above, LevelOf, Target, Offsets, Extended, OnePlace, Mapped;
      ghost var s0 := State();
      SameOnes(s0);
      BeyondDirect(n);
      if iblock < DIRECT_BLOCKS {
        freed := direct[iblock];
        direct := direct[iblock := 0];
        DirectMapped(s0, State(), iblock, 0);
        return EOK, freed;
      }
      var l := FindLevel(iblock);
      if l == 0 {
        HoleMapped(s0, iblock);
        return EIO, 0;
      }
      ghost var t := Target(n, iblock);
      PathOfTarget(s0, iblock);
      var off, inBlk := FirstOffsets(iblock, l);
      var current := roots[l - 1];
      while l > 1 && current != 0
        invariant 1 <= l <= t.top && current == At(s0, Above(n, t.top, t.index, l)) && Offsets(n, t, l, off, inBlk)
        invariant Valid() && State() == s0 && size == old(size)
      {
        Child(s0, t, l - 1, off, inBlk);
        current := disk[current][inBlk];
        l := l - 1;
        off, inBlk := NextOffsets(t, l, off, inBlk);
      }
      err := EOK;
      if current == 0 {
        NothingBelow(s0, t.top, t.index, l, 0);
        HoleMapped(s0, iblock);
        return EOK, 0;
      }
      Child(s0, t, 0, off, inBlk);
      freed := disk[current][inBlk];
      PutData(t, current, off, inBlk, 0);
      DataApart(s0, State(), t, 0);
      Unextended(s0, t);
      DataMapped(s0, s0, State(), t.top, t.index, iblock, 0);
    }

    /** The blocks that a size takes. */
    function BlocksFor(bytes: nat): nat
      requires n > 0
      reads this
    {
      (bytes + 4 * n - 1) / (4 * n)
    }

    /** The part of ext4_fs_truncate_inode for an inode with indirect blocks: data blocks are released from the new end on. */
    method Truncate(newSize: nat) returns (err: Error, freed: seq<nat>)
      requires Valid() && BlocksFor(size) < WORD
      modifies this
      ensures Valid() && (err == EINVAL <==> old(size) < newSize)
      ensures err == EIO <==> newSize < old(size) && BlocksFor(newSize) < BlocksFor(old(size)) && Limit(n, 3) < BlocksFor(old(size))
      ensures err == EOK || err == EIO || err == EINVAL
      ensures size == if err == EOK then newSize else old(size)
      ensures forall b: nat ::
        Lookup(State(), b) == if BlocksFor(newSize) <= b < BlocksFor(old(size)) then 0 else Lookup(old(State()), b)
      ensures freed == Held(old(State()), BlocksFor(newSize), BlocksFor(old(size)))
      ensures Held(State(), 0, BlocksFor(old(size))) + freed == Held(old(State()), 0, BlocksFor(old(size)))
      ensures SameTrees(old(State()), State())
    {
      hide Limit, Lookup, Sound, Target, At, SameTrees;
      freed := [];
      ghost var s0 := State();
      SameOnes(s0);
      Shape();
      if size == newSize {
        HeldSplit(s0, s0, BlocksFor(size), BlocksFor(size));
        return EOK, freed;
      }
      var newCnt, oldCnt := BlocksFor(newSize), BlocksFor(size);
      if size < newSize {
        MoreBlocks(size, newSize, 4 * n);
        HeldSplit(s0, s0, oldCnt, oldCnt);
        HeldNone(s0, newCnt, oldCnt);
        return EINVAL, freed;
      }
      MoreBlocks(newSize, size, 4 * n);
      err, freed := ReleaseRange(newCnt, oldCnt);
      Shape();
      HeldSplit(s0, State(), newCnt, oldCnt);
      if err == EOK {
        size := newSize;
      }
    }

    /** The loop of ext4_fs_truncate_inode. */
    method ReleaseRange(newCnt: nat, oldCnt: nat) returns (err: Error, freed: seq<nat>)
      requires Valid() && newCnt <= oldCnt
      modifies this
      ensures Valid() && size == old(size) && err == if newCnt < oldCnt && Limit(n, 3) < oldCnt then EIO else EOK
      ensures forall b: nat :: Lookup(State(), b) == if newCnt <= b < oldCnt then 0 else Lookup(old(State()), b)
      ensures freed == Held(old(State()), newCnt, oldCnt) && SameTrees(old(State()), State())
    {
      hide Limit, Lookup, Sound, Target, At, SameTrees;
      freed := [];
      ghost var s0 := State();
      SameOnes(s0);
      Shape();
      err := EOK;
      var i := 0;
      while i < oldCnt - newCnt && err == EOK
        invariant 0 <= i <= oldCnt - newCnt && Valid() && Shaped(State()) && size == old(size)
        invariant forall b: nat :: Lookup(State(), b) == if newCnt <= b < newCnt + i then 0 else Lookup(s0, b)
        invariant freed == Held(s0, newCnt, newCnt + i) && SameTrees(s0, State())
        invariant err == if i > 0 && Limit(n, 3) < newCnt + i then EIO else EOK
        decreases oldCnt - newCnt - i
      {
        ghost var s1 := State();
        var blk;
        err, blk := Release(newCnt + i);
        Shape();
        ReleasedOne(s0, s1, State(), newCnt, i, blk);
        SameOnward(s0, s1, State());
        if blk != 0 {
          freed := freed + [blk];
        }
        i := i + 1;
      }
      if err == EIO {
        HeldBeyond(s0, newCnt, newCnt + i, oldCnt);
      }
    }

    lemma Shape()
      requires Valid()
      ensures Shaped(State()) && n > 0
    {
    }

    /** The number of the data block goes into the last indirect block. */
    method PutData(ghost t: Place, current: nat, ghost off: nat, inBlk: nat, v: nat)
      requires Valid() && 1 <= t.top <= 3 && t.level == 0 && Above(n, t.top, t.index, 0) == t && Offsets(n, t, 1, off, inBlk)
      requires current != 0 && current == At(State(), Above(n, t.top, t.index, 1))
      modifies `disk
      ensures Valid() && OnePlace(old(State()), State(), t, v)
    {
      hide PerLevel, At, Above, Offsets;
      ghost var s := State();
      Child(s, t, 0, off, inBlk);
      InBlock(s, t, 1, off, inBlk);
      DataHung(s, t, v);
      var words: seq<nat> := disk[current][inBlk := v];
      disk := disk[current := words];
      assert State() == WithWord(s, current, inBlk, v);
    }
  }

  /** How many indirect blocks the path to a logical block lacks. */
  ghost function Lacking(s: Store, iblock: nat): nat
    requires s.n > 0 && |s.roots| == 3
  {
    if DIRECT_BLOCKS <= iblock < Limit(s.n, 3) then
      var t := Target(s.n, iblock);
      TargetIsData(s.n, iblock);
      Missing(s, t.top, t.index, t.top)
    else
      0
  }

  /** What is left of the supply once the heights above level have been reached. */
  ghost predicate Taken(s0: Store, t: Place, level: nat, supply0: seq<nat>, supply: seq<nat>)
    requires s0.n > 0 && |s0.roots| == 3
  {
    && 1 <= t.top <= 3 && level <= t.top
    && var used := Missing(s0, t.top, t.index, t.top) - Missing(s0, t.top, t.index, level);
       0 <= used <= |supply0| && supply == supply0[used..]
  }

  lemma Begin(s: Store, t: Place, supply: seq<nat>)
    requires Sound(s) && 1 <= t.top <= 3
    ensures Taken(s, t, t.top, supply, supply)
    ensures Extended(s, s, t.top, t.index, t.top + 1) && PathMade(s, s, t, t.top + 1, supply)
  {
  }

  /** The block for a height of the path that has none: those above it that have none come first; 0 when the supply ends before. */
  ghost function NewAt(s: Store, t: Place, level: nat, supply: seq<nat>): nat
    requires s.n > 0 && |s.roots| == 3 && 1 <= t.top <= 3 && level <= t.top
  {
    var i := Missing(s, t.top, t.index, t.top) - Missing(s, t.top, t.index, level);
    if 0 <= i < |supply| then supply[i] else 0
  }

  /** The path has indirect blocks down to this height, as far as the supply goes, and no other place has another one than before. */
  ghost predicate PathMade(s: Store, s': Store, t: Place, level: nat, supply: seq<nat>) {
    && s.n > 0 && |s.roots| == 3 && s'.n == s.n && |s'.roots| == 3 && 1 <= t.top <= 3
    && forall p: Place :: InTree(p) && p.level > 0 ==>
        At(s', p) == if p.top == t.top && p.level >= level && p == Above(s.n, t.top, t.index, p.level) && At(s, p) == 0
                     then NewAt(s, t, p.level, supply) else At(s, p)
  }

  lemma {:induction false} MissingLess(s: Store, t: Place, low: nat, level: nat)
    requires s.n > 0 && |s.roots| == 3 && 1 <= t.top <= 3 && low <= level <= t.top
    ensures Missing(s, t.top, t.index, low) <= Missing(s, t.top, t.index, level)
    decreases level
  {
    hide At, Above;
    if low < level {
      MissingLess(s, t, low, level - 1);
    }
  }

  /** The next height of the path. */
  lemma PathMore(s0: Store, s: Store, s': Store, t: Place, level: nat, current: nat,
                 supply0: seq<nat>, supply: seq<nat>, supply': seq<nat>, err: Error)
    requires Sound(s0) && 1 <= t.top <= 3 && 0 < level <= t.top && PathMade(s0, s, t, level + 1, supply0)
    requires Taken(s0, t, level, supply0, supply) && Reached(s, s', t, level, current, supply, supply', err)
    ensures err == EOK ==> PathMade(s0, s', t, level, supply0)
    ensures err != EOK ==> PathMade(s0, s', t, 1, supply0) && supply' == []
  {
    hide At, Above, Missing;
    var c := Above(s0.n, t.top, t.index, level);
    if err != EOK {
      forall k | 0 < k <= level ensures NewAt(s0, t, k, supply0) == 0 {
        MissingLess(s0, t, k, level);
      }
    }
  }

  /** Data words have no part in the path. */
  lemma PathKept(s: Store, s1: Store, s': Store, t: Place, supply: seq<nat>, c: Place, v: nat)
    requires PathMade(s, s1, t, 1, supply) && OnePlace(s1, s', c, v) && c.level == 0
    ensures PathMade(s, s', t, 1, supply)
  {
    hide At, Above, NewAt;
  }

  lemma ExtendedMore(s: Store, s': Store, top: nat, off: nat, level: nat)
    requires Extended(s, s', top, off, level) && level > 0
    ensures Extended(s, s', top, off, 1)
  {
    hide At, Above;
  }

  lemma Unextended(s: Store, t: Place)
    requires Sound(s) && 1 <= t.top <= 3
    ensures Extended(s, s, t.top, t.index, 1)
  {
  }

  lemma HoleMapped(s: Store, iblock: nat)
    requires Sound(s) && Lookup(s, iblock) == 0
    ensures Mapped(s, s, iblock, 0)
  {
  }

  lemma LackingIs(s: Store, iblock: nat)
    requires s.n > 0 && |s.roots| == 3 && DIRECT_BLOCKS <= iblock < Limit(s.n, 3)
    ensures var t := Target(s.n, iblock);
            1 <= t.top <= 3 && Lacking(s, iblock) == Missing(s, t.top, t.index, t.top) && Missing(s, t.top, t.index, 0) == 0
            && forall supply, supply' :: Taken(s, t, 0, supply, supply') ==> Lacking(s, iblock) <= |supply| && supply' == supply[Lacking(s, iblock)..]
  {
    hide PerLevel, At, Above;
  }

  lemma InReach(n: nat, iblock: nat)
    requires n > 0 && DIRECT_BLOCKS <= iblock < Limit(n, 3)
    ensures var t := Target(n, iblock); t.index < PerLevel(n, t.top)
  {
    hide PerLevel;
  }

  lemma Advance(s0: Store, s: Store, s': Store, t: Place, level: nat, current: nat,
                supply0: seq<nat>, supply: seq<nat>, supply': seq<nat>, err: Error)
    requires Sound(s0) && 1 <= t.top <= 3 && 0 < level <= t.top && s.n == s0.n && |s.roots| == 3
    requires Extended(s0, s, t.top, t.index, level + 1) && Taken(s0, t, level, supply0, supply)
    requires Reached(s, s', t, level, current, supply, supply', err)
    ensures err == EOK ==> Extended(s0, s', t.top, t.index, level) && current == At(s', Above(s0.n, t.top, t.index, level)) && current != 0
    ensures err == EOK ==> Taken(s0, t, level - 1, supply0, supply') && Supplied(s', supply')
    ensures err != EOK ==> err == ENOSPC && s' == s && Extended(s0, s', t.top, t.index, level) && |supply0| < Missing(s0, t.top, t.index, t.top)
  {
    hide At, Above;
    var c := Above(s0.n, t.top, t.index, level);
    assert At(s, c) == At(s0, c);
    MissingGrows(s0, t, level);
  }

  lemma {:induction false} MissingGrows(s: Store, t: Place, level: nat)
    requires s.n > 0 && |s.roots| == 3 && 1 <= t.top <= 3 && level <= t.top
    ensures Missing(s, t.top, t.index, level) <= Missing(s, t.top, t.index, t.top)
    decreases t.top - level
  {
    hide At, Above;
    if level < t.top {
      MissingGrows(s, t, level + 1);
    }
  }

  /** Every place has the indirect block that it had. */
  ghost predicate SameTrees(s: Store, s': Store) {
    && s.n > 0 && |s.roots| == 3 && s'.n == s.n && |s'.roots| == 3
    && forall p: Place :: InTree(p) && p.level > 0 ==> At(s', p) == At(s, p)
  }

  lemma SameOnes(s: Store)
    requires Sound(s)
    ensures SameTrees(s, s)
  {
  }

  lemma SameOnward(s0: Store, s1: Store, s2: Store)
    requires SameTrees(s0, s1) && SameTrees(s1, s2)
    ensures SameTrees(s0, s2)
  {
    hide At;
  }

  lemma DataApart(s: Store, s': Store, c: Place, v: nat)
    requires OnePlace(s, s', c, v) && c.level == 0
    ensures SameTrees(s, s')
  {
    hide At;
  }

  lemma DirectMapped(s: Store, s': Store, iblock: nat, v: nat)
    requires Sound(s) && iblock < DIRECT_BLOCKS && s'.n == s.n && s'.roots == s.roots && s'.disk == s.disk && s'.direct == s.direct[iblock := v]
    ensures Sound(s') && Mapped(s, s', iblock, v) && SameTrees(s, s')
  {
    hide Limit, Target;
    forall p: Place | InTree(p) ensures At(s', p) == At(s, p) {
      OnlyTrees(s, s', p);
    }
    LimitsGrow(s.n);
  }

  lemma {:induction false} OnlyTrees(s: Store, s': Store, p: Place)
    requires s.n > 0 && |s.roots| == 3 && s'.n == s.n && s'.roots == s.roots && s'.disk == s.disk && InTree(p)
    ensures At(s', p) == At(s, p)
    decreases p.top - p.level
  {
    if p.level < p.top {
      OnlyTrees(s, s', Place(p.top, p.level + 1, p.index / s.n));
    }
  }

  /** The walk's offset is the digit of the child's place. */
  lemma InBlock(s: Store, t: Place, l: nat, off: nat, inBlk: nat)
    requires s.n > 0 && 0 < l <= t.top <= 3 && Offsets(s.n, t, l, off, inBlk)
    ensures var c := Above(s.n, t.top, t.index, l - 1);
            InTree(c) && c.index % s.n == inBlk && Place(c.top, c.level + 1, c.index / s.n) == Above(s.n, t.top, t.index, l)
  {
    hide PerLevel;
    Down(s.n, t.top, t.index, l - 1);
  }

  lemma IsWithWord(s: Store, blk: nat, current: nat, i: nat, s': Store)
    requires current in s.disk && current != blk && i < |s.disk[current]| && s'.n == s.n && s'.direct == s.direct && s'.roots == s.roots
    requires s'.disk == s.disk[blk := seq(s.n, _ => 0)][current := s.disk[current][i := blk]]
    ensures s' == WithWord(Blank(s, blk), current, i, blk)
  {
  }

  /** A height of the path has been reached: there is a block, or there is none and nothing to make one of. */
  ghost predicate Reached(s: Store, s': Store, t: Place, level: nat, current: nat, supply: seq<nat>, supply': seq<nat>, err: Error)
    requires s.n > 0 && |s.roots| == 3
  {
    && 1 <= t.top <= 3 && level <= t.top && s'.n == s.n && |s'.roots| == 3 && Supplied(s', supply')
    && var c := Above(s.n, t.top, t.index, level);
       if At(s, c) != 0 then err == EOK && s' == s && supply' == supply && current == At(s, c)
       else if supply == [] then err == ENOSPC && s' == s && supply' == supply
       else err == EOK && supply' == supply[1..] && current == supply[0] && current != 0 && current < WORD && OnePlace(s, s', c, current)
  }

  lemma TopIsRoot(s: Store, t: Place)
    requires s.n > 0 && |s.roots| == 3 && 1 <= t.top <= 3 && t.index < PerLevel(s.n, t.top)
    ensures Above(s.n, t.top, t.index, t.top) == Place(t.top, t.top, 0) && At(s, Place(t.top, t.top, 0)) == s.roots[t.top - 1]
  {
    hide PerLevel;
    DivMod(0, t.index, PerLevel(s.n, t.top));
  }

  lemma IsWithRoot(s: Store, l: nat, blk: nat, s': Store)
    requires |s.roots| == 3 && 1 <= l <= 3 && s'.n == s.n && s'.direct == s.direct
    requires s'.roots == s.roots[l - 1 := blk] && s'.disk == s.disk[blk := seq(s.n, _ => 0)]
    ensures s' == WithRoot(Blank(s, blk), l, blk)
  {
  }

  lemma Taking(s: Store, s': Store, t: Place, level: nat, blk: nat, supply: seq<nat>)
    requires Sound(s) && Supplied(s, supply) && supply != [] && supply[0] == blk && 0 < level <= t.top <= 3
    requires At(s, Above(s.n, t.top, t.index, level)) == 0 && OnePlace(s, s', Above(s.n, t.top, t.index, level), blk)
    ensures Reached(s, s', t, level, blk, supply, supply[1..], EOK)
  {
    hide At, Above;
    var rest := supply[1..];
    assert forall i :: 0 <= i < |rest| ==> rest[i] == supply[i + 1];
  }

  /** The offsets that the walk keeps: within what the block at height l covers, and in that block. */
  ghost predicate Offsets(n: nat, t: Place, l: nat, off: nat, inBlk: nat) {
    && n > 0 && 0 < l <= t.top
    && (PerPositive(n, l); off == t.index % PerLevel(n, l)) && inBlk == Above(n, t.top, t.index, l - 1).index % n
  }

  lemma PathOfTarget(s: Store, iblock: nat)
    requires Sound(s) && DIRECT_BLOCKS <= iblock < Limit(s.n, 3)
    ensures var t := Target(s.n, iblock);
            && InTree(t) && t.level == 0 && t.top == LevelOf(s.n, iblock) && 1 <= t.top <= 3
            && At(s, Above(s.n, t.top, t.index, t.top)) == s.roots[t.top - 1] && Above(s.n, t.top, t.index, 0) == t
  {
    TopOfPath(s.n, iblock);
  }

  predicate LimitsUpTo(n: nat, limits: seq<nat>, perLevel: seq<nat>, k: nat) {
    && |limits| == |perLevel| == k
    && forall i :: 0 <= i < k ==> limits[i] == Limit(n, i) && perLevel[i] == PerLevel(n, i)
  }

  lemma LevelsNext(n: nat, k: nat)
    ensures PerLevel(n, 0) == 1 && Limit(n, 0) == DIRECT_BLOCKS
    ensures PerLevel(n, k + 1) == PerLevel(n, k) * n && Limit(n, k + 1) == Limit(n, k) + PerLevel(n, k + 1)
  {
  }

  lemma BeyondDirect(n: nat)
    ensures DIRECT_BLOCKS <= Limit(n, 3)
  {
    LimitsGrow(n);
  }

  lemma EmptyStore(s: Store)
    requires s.n > 0 && s.direct == seq(DIRECT_BLOCKS, _ => 0) && s.roots == seq(3, _ => 0)
    ensures Sound(s) && forall b: nat :: Lookup(s, b) == 0
  {
    hide Limit, Target;
    forall p: Place | InTree(p) ensures At(s, p) == 0 {
      EmptyAt(s, p);
    }
  }

  lemma {:induction false} EmptyAt(s: Store, p: Place)
    requires s.n > 0 && |s.roots| == 3 && (forall i :: 0 <= i < 3 ==> s.roots[i] == 0) && InTree(p)
    ensures At(s, p) == 0
    decreases p.top - p.level
  {
    if p.level < p.top {
      EmptyAt(s, Place(p.top, p.level + 1, p.index / s.n));
    }
  }

  /** The word that the walk reads is the next block of the path. */
  lemma Child(s: Store, t: Place, level: nat, off: nat, inBlk: nat)
    requires Sound(s) && 1 <= t.top <= 3 && level < t.top && At(s, Above(s.n, t.top, t.index, level + 1)) != 0
    requires Offsets(s.n, t, level + 1, off, inBlk)
    ensures var up := At(s, Above(s.n, t.top, t.index, level + 1));
            && up in s.disk && |s.disk[up]| == s.n && inBlk < s.n
            && s.disk[up][inBlk] == At(s, Above(s.n, t.top, t.index, level))
  {
    hide PerLevel;
    Down(s.n, t.top, t.index, level);
  }

  lemma {:induction false} NothingBelow(s: Store, top: nat, off: nat, from: nat, level: nat)
    requires s.n > 0 && |s.roots| == 3 && 1 <= top <= 3 && level <= from <= top && At(s, Above(s.n, top, off, from)) == 0
    ensures At(s, Above(s.n, top, off, level)) == 0
    decreases from - level
  {
    hide PerLevel;
    if level < from {
      NothingBelow(s, top, off, from, level + 1);
      Down(s.n, top, off, level);
    }
  }
}

/** The kernel's buddy allocator: free lists of power-of-two blocks, and the heap on top of it. */
module Buddy {
  import opened Arithmetic

  const MAX_BUDDY_HEADER_BITS := 32
  const MIN_UNIT_SIZE := 32
  const HEADER_SIZE := 16

  function Pow2(k: nat): nat { if k == 0 then 1 else 2 * Pow2(k - 1) }

  /** unit_size << index */
  function BlockSize(unit: nat, index: nat): nat { unit * Pow2(index) }

  lemma BlockSizeNext(unit: nat, index: nat)
    ensures BlockSize(unit, index + 1) == 2 * BlockSize(unit, index) && BlockSize(unit, 0) == unit
    ensures unit > 0 ==> BlockSize(unit, index) > 0
  {
    PowPositive(index);
  }

  lemma {:induction false} PowPositive(k: nat)
    ensures Pow2(k) > 0
  {
    if k > 0 {
      PowPositive(k - 1);
    }
  }

  // ----- what the free lists cover -----

  function Between(lo: nat, hi: nat, b: nat): nat { if lo <= b < hi then 1 else 0 }

  function Within(a: nat, size: nat, b: nat): nat { Between(a, a + size, b) }

  /** How many of the blocks of a list contain byte b. */
  ghost function CoverIn(list: seq<nat>, size: nat, b: nat): nat {
    if list == [] then 0 else Within(list[0], size, b) + CoverIn(list[1..], size, b)
  }

  /** How many free blocks contain byte b, when the lists are those from index k on. */
  ghost function CoverFrom(header: seq<seq<nat>>, unit: nat, k: nat, b: nat): nat
    decreases |header| - k
  {
    if k >= |header| then 0 else CoverIn(header[k], BlockSize(unit, k), b) + CoverFrom(header, unit, k + 1, b)
  }

  ghost function Cover(header: seq<seq<nat>>, unit: nat, b: nat): nat { CoverFrom(header, unit, 0, b) }

  ghost predicate Ascending(list: seq<nat>) { forall i, j :: 0 <= i < j < |list| ==> list[i] <= list[j] }

  /** Lists ascend, and a block's address is a multiple of its size. */
  ghost predicate ListsOk(header: seq<seq<nat>>, unit: nat) {
    && |header| == MAX_BUDDY_HEADER_BITS && unit > 0
    && forall k :: 0 <= k < |header| ==> ListOk(header[k], BlockSize(unit, k))
  }

  ghost predicate ListOk(list: seq<nat>, size: nat) { size > 0 && Ascending(list) && forall i :: 0 <= i < |list| ==> list[i] % size == 0 }

  lemma {:induction false} CoverConcat(x: seq<nat>, y: seq<nat>, size: nat, b: nat)
    ensures CoverIn(x + y, size, b) == CoverIn(x, size, b) + CoverIn(y, size, b)
    decreases |x|
  {
    hide Within;
    if x == [] {
      assert x + y == y;
    } else {
      assert (x + y)[1..] == x[1..] + y;
      CoverConcat(x[1..], y, size, b);
    }
  }

  lemma {:induction false} CoverUpdate(header: seq<seq<nat>>, unit: nat, k: nat, index: nat, list: seq<nat>, b: nat)
    requires k <= index < |header|
    ensures CoverFrom(header[index := list], unit, k, b) + CoverIn(header[index], BlockSize(unit, index), b)
         == CoverFrom(header, unit, k, b) + CoverIn(list, BlockSize(unit, index), b)
    decreases |header| - k
  {
    hide CoverIn, BlockSize;
    if k == index {
      CoverBeyond(header, unit, index + 1, index, list, b);
    } else {
      CoverUpdate(header, unit, k + 1, index, list, b);
    }
  }

  lemma {:induction false} CoverBeyond(header: seq<seq<nat>>, unit: nat, k: nat, index: nat, list: seq<nat>, b: nat)
    requires index < k && index < |header|
    ensures CoverFrom(header[index := list], unit, k, b) == CoverFrom(header, unit, k, b)
    decreases |header| - k
  {
    hide CoverIn, BlockSize;
    if k < |header| {
      CoverBeyond(header, unit, k + 1, index, list, b);
    }
  }

  lemma CoverOne(a: nat, size: nat, b: nat)
    ensures CoverIn([a], size, b) == Within(a, size, b)
  {
    assert [a][1..] == [];
  }

  // ----- alignment -----

  /** Bit B of an address, for a power of two B. */
  predicate BitSet(addr: nat, size: nat)
    requires size > 0
  {
    addr / size % 2 == 1
  }

  lemma Aligned(addr: nat, size: nat)
    requires size > 0 && addr % size == 0
    ensures BitSet(addr, size) ==> addr >= size && (addr + size) % (2 * size) == 0 && (addr - size) % (2 * size) == 0
    ensures !BitSet(addr, size) ==> addr % (2 * size) == 0
  {
    var q := addr / size;
    var h := q / 2;
    Doubled(h, size);
    if q % 2 == 1 {
      assert q == 2 * h + 1;
      assert addr == q * size;
    } else {
      assert q == 2 * h;
      assert addr == q * size;
    }
  }

  lemma Doubled(h: nat, size: nat)
    requires size > 0
    ensures (2 * h) * size % (2 * size) == 0 && ((2 * h + 1) * size + size) % (2 * size) == 0
    ensures ((2 * h + 1) * size - size) % (2 * size) == 0 && (2 * h + 1) * size >= size
  {
    MultipleOf(2 * size, h);
    MultipleOf(2 * size, h + 1);
    assert (2 * h) * size == 2 * size * h;
    assert (2 * h + 1) * size + size == 2 * size * (h + 1);
    assert (2 * h + 1) * size - size == 2 * size * h;
  }

  lemma MultipleOf(d: nat, q: nat)
    requires d > 0
    ensures (d * q) % d == 0
  {
    DivMod(q, 0, d);
    assert d * q == q * d + 0;
  }

  /** Different multiples are at least one step apart. */
  lemma Apart(a: nat, b: nat, d: nat)
    requires d > 0 && a % d == 0 && b % d == 0 && a < b
    ensures a + d <= b
  {
    var i, j := a / d, b / d;
    assert a == i * d && b == j * d;
    Multiples(i, j, d);
    Multiples(j, i, d);
  }

  // ----- powers of two -----

  lemma {:induction false} PowAdd(u: nat, k: nat)
    ensures Pow2(u + k) == Pow2(u) * Pow2(k)
  {
    if k > 0 {
      PowAdd(u, k - 1);
    }
  }

  lemma PowDivides(u: nat, l: nat)
    requires u <= l
    ensures Pow2(u) > 0 && Pow2(l) % Pow2(u) == 0 && Pow2(u) <= Pow2(l)
  {
    PowPositive(u);
    PowPositive(l - u);
    PowAdd(u, l - u);
    MultipleOf(Pow2(u), Pow2(l - u));
    assert Pow2(u) * Pow2(l - u) >= Pow2(u);
  }

  /** 64 - clzll(n): how many bits n takes. */
  function Bits(n: nat): (l: nat)
    ensures n < Pow2(l) && (n > 0 ==> l > 0 && Pow2(l - 1) <= n)
  {
    if n == 0 then 0 else 1 + Bits(n / 2)
  }

  lemma {:induction false} MultipleTrans(a: nat, m: nat, d: nat)
    requires m > 0 && d > 0 && a % m == 0 && m % d == 0
    ensures a % d == 0
  {
    var q, r := a / m, m / d;
    assert a == m * q && m == d * r;
    assert a == d * (r * q);
    MultipleOf(d, r * q);
  }

  lemma MultipleSum(a: nat, b: nat, d: nat)
    requires d > 0 && a % d == 0 && b % d == 0
    ensures (a + b) % d == 0
  {
    assert a + b == d * (a / d + b / d);
    MultipleOf(d, a / d + b / d);
  }

  // ----- the allocator -----

  /** The block lies in the range, and the block twice as large that it is half of does not. */
  ghost predicate Largest(a: nat, size: nat, lo: nat, hi: nat) {
    && size > 0 && a % size == 0 && lo <= a && a + size <= hi
    && if a % (2 * size) == 0 then hi < a + 2 * size else a < lo + size
  }

  /** The lists have the blocks that they had, and more blocks of the range, each as large as it can be. */
  ghost predicate Gained(header0: seq<seq<nat>>, header: seq<seq<nat>>, unit: nat, lo: nat, hi: nat) {
    && |header| == |header0|
    && forall k :: 0 <= k < |header| ==> GainedIn(header0[k], header[k], BlockSize(unit, k), lo, hi)
  }

  ghost predicate GainedIn(list0: seq<nat>, list: seq<nat>, size: nat, lo: nat, hi: nat) {
    multiset(list0) <= multiset(list) && forall a :: a in multiset(list) - multiset(list0) ==> Largest(a, size, lo, hi)
  }

  lemma GainedNone(header: seq<seq<nat>>, unit: nat, lo: nat, hi: nat)
    ensures Gained(header, header, unit, lo, hi)
  {
  }

  /** The blocks at the two ends of a range of blocks of one size that have no other half in the range. */
  ghost function Ends(lo: nat, hi: nat, size: nat): multiset<nat>
    requires size > 0
  {
    (if BitSet(lo, size) then multiset{lo} else multiset{}) + if BitSet(hi, size) && hi >= size then multiset{hi - size} else multiset{}
  }

  lemma EndsLargest(lo: nat, hi: nat, size: nat, lo0: nat, hi0: nat)
    requires size > 0 && lo % size == 0 && hi % size == 0 && lo0 <= lo < lo0 + size && hi <= hi0 < hi + size && lo < hi
    ensures forall a :: a in Ends(lo, hi, size) ==> Largest(a, size, lo0, hi0)
  {
    hide BitSet;
    Aligned(lo, size);
    Aligned(hi, size);
    Apart(lo, hi, size);
    if BitSet(lo, size) {
      OddNotEven(lo, size);
    }
    if BitSet(hi, size) {
      Twice(hi - size, size);
      if lo > hi - size {
        assert false;
      }
    }
  }

  lemma GainedMore(header0: seq<seq<nat>>, header: seq<seq<nat>>, header': seq<seq<nat>>, unit: nat, lo: nat, hi: nat, k: nat, more: multiset<nat>)
    requires Gained(header0, header, unit, lo, hi) && k < |header| && k < |header'| && header' == header[k := header'[k]]
    requires multiset(header'[k]) == multiset(header[k]) + more && forall a :: a in more ==> Largest(a, BlockSize(unit, k), lo, hi)
    ensures Gained(header0, header', unit, lo, hi)
  {
    hide Largest, BlockSize;
    assert GainedIn(header0[k], header[k], BlockSize(unit, k), lo, hi);
    forall a | a in multiset(header'[k]) - multiset(header0[k]) ensures Largest(a, BlockSize(unit, k), lo, hi) {
      assert a in multiset(header[k]) - multiset(header0[k]) || a in more;
    }
  }

  class BuddySystem {
    const unitBits: nat
    var header: seq<seq<nat>>

    constructor (unitBits: nat)
      ensures this.unitBits == unitBits && Valid() && forall b: nat :: Cover(header, Unit(), b) == 0
    {
      this.unitBits := unitBits;
      header := seq(MAX_BUDDY_HEADER_BITS, _ => []);
      new;
      EmptyLists(header, Unit());
      PowPositive(unitBits);
      forall k | 0 <= k < |header| ensures ListOk(header[k], BlockSize(Unit(), k)) {
        BlockSizeNext(Unit(), k);
      }
    }

    /** unit_size */
    function Unit(): nat { Pow2(unitBits) }

    ghost predicate Valid()
      reads this
    {
      ListsOk(header, Unit())
    }

    /** add_node */
    method AddNode(index: nat, addr: nat)
      requires Valid() && index < MAX_BUDDY_HEADER_BITS && BlockSize(Unit(), index) > 0 && addr % BlockSize(Unit(), index) == 0
      modifies this
      ensures Valid() && forall b: nat :: Cover(header, Unit(), b) == Cover(old(header), Unit(), b) + Within(addr, BlockSize(Unit(), index), b)
      ensures |header| == |old(header)| == MAX_BUDDY_HEADER_BITS && header == old(header)[index := header[index]]
      ensures multiset(header[index]) == multiset(old(header)[index]) + multiset{addr}
    {
      hide CoverIn, CoverFrom, BlockSize, Within;
      var list := header[index];
      assert ListOk(list, BlockSize(Unit(), index));
      var link := 0;
      while link < |list| && list[link] < addr
        invariant link <= |list| && forall i :: 0 <= i < link ==> list[i] < addr
      {
        link := link + 1;
      }
      var list' := list[..link] + [addr] + list[link..];
      header := header[index := list'];
      InsertedOk(list, link, addr, BlockSize(Unit(), index));
      assert list == list[..link] + list[link..];
      forall b: nat ensures Cover(header, Unit(), b) == Cover(old(header), Unit(), b) + Within(addr, BlockSize(Unit(), index), b) {
        CoverUpdate(old(header), Unit(), 0, index, list', b);
        InsertedCover(list, link, addr, BlockSize(Unit(), index), b);
      }
    }

    /** The bounds that add_range works on: only whole units inside the range count. */
    function UnitUp(addr: nat): nat
      requires Unit() > 0
    {
      (addr + (Unit() - 1)) / Unit() * Unit()
    }

    function UnitDown(addr: nat): nat
      requires Unit() > 0
    {
      addr / Unit() * Unit()
    }

    /** One turn of the loop of add_range: at either end a block of this size, if the end's address calls for it. */
    method AddEnds(index: nat, lo: nat, hi: nat) returns (lo': nat, hi': nat)
      requires Valid() && index < MAX_BUDDY_HEADER_BITS && BlockSize(Unit(), index) > 0 && lo < hi
      requires lo % BlockSize(Unit(), index) == 0 && hi % BlockSize(Unit(), index) == 0
      modifies this
      ensures Valid() && lo <= lo' <= hi' <= hi
      ensures BlockSize(Unit(), index + 1) > 0 && lo' % BlockSize(Unit(), index + 1) == 0 && hi' % BlockSize(Unit(), index + 1) == 0
      ensures forall b: nat :: Cover(header, Unit(), b) == Cover(old(header), Unit(), b) + Between(lo, lo', b) + Between(hi', hi, b)
      ensures var size := BlockSize(Unit(), index);
              lo' == lo + (if BitSet(lo, size) then size else 0) && hi' == hi - if BitSet(hi, size) then size else 0
      ensures |header| == |old(header)| == MAX_BUDDY_HEADER_BITS && header == old(header)[index := header[index]]
      ensures multiset(header[index]) == multiset(old(header)[index]) + Ends(lo, hi, BlockSize(Unit(), index))
    {
      hide BlockSize, Cover, ListsOk, BitSet;
      HeaderSize();
      lo', hi' := lo, hi;
      var bitAnd := BlockSize(Unit(), index);
      Apart(lo, hi, bitAnd);
      Aligned(lo, bitAnd);
      Aligned(hi, bitAnd);
      BlockSizeNext(Unit(), index);
      if BitSet(lo, bitAnd) {
        AddNode(index, lo);
        lo' := lo + bitAnd;
      }
      if BitSet(hi, bitAnd) {
        NotBoth(lo', hi, bitAnd);
        hi' := hi - bitAnd;
        Twice(hi', bitAnd);
        AddNode(index, hi');
      }
    }

    /** add_range: the whole units of the range become free, in blocks that lie at multiples of their size. */
    method AddRange(addr: nat, size: nat)
      requires Valid() && size < BlockSize(Unit(), MAX_BUDDY_HEADER_BITS)
      modifies this
      ensures Valid() && Unit() > 0
      ensures forall b: nat :: Cover(header, Unit(), b) == Cover(old(header), Unit(), b) + Between(UnitUp(addr), UnitDown(addr + size), b)
      ensures Gained(old(header), header, Unit(), UnitUp(addr), UnitDown(addr + size))
    {
      hide BlockSize, Cover, ListsOk, Gained, BitSet, Ends;
      UnitIsPositive();
      var lo, hi := UnitUp(addr), UnitDown(addr + size);
      Bounds(addr, size);
      BlockSizeNext(Unit(), 0);
      ghost var lo0, hi0 := lo, hi;
      GainedNone(header, Unit(), lo, hi);
      HeaderSize();
      var index := 0;
      while lo < hi
        invariant index <= MAX_BUDDY_HEADER_BITS == |header| && Valid() && BlockSize(Unit(), index) > 0
        invariant lo % BlockSize(Unit(), index) == 0 && hi % BlockSize(Unit(), index) == 0
        invariant lo0 <= lo && hi <= hi0 && (lo0 < hi0 ==> lo <= hi) && (lo0 >= hi0 ==> lo == lo0 && hi == hi0)
        invariant forall b: nat :: Cover(header, Unit(), b) == Cover(old(header), Unit(), b) + Between(lo0, lo, b) + Between(hi, hi0, b)
        invariant Gained(old(header), header, Unit(), lo0, hi0) && lo < lo0 + BlockSize(Unit(), index) && hi0 < hi + BlockSize(Unit(), index)
        decreases MAX_BUDDY_HEADER_BITS - index
      {
        Apart(lo, hi, BlockSize(Unit(), index));
        EndsLargest(lo, hi, BlockSize(Unit(), index), lo0, hi0);
        BlockSizeNext(Unit(), index);
        ghost var before, more := header, Ends(lo, hi, BlockSize(Unit(), index));
        lo, hi := AddEnds(index, lo, hi);
        GainedMore(old(header), before, header, Unit(), lo0, hi0, index, more);
        index := index + 1;
      }
    }

    /** Some list from index on has a block; the source walks past the last list when none has. */
    ghost predicate HasBlock(index: nat)
      reads this
    {
      exists k :: index <= k < |header| && header[k] != []
    }

    /** Takes the first block of a list. */
    method PopNode(index: nat) returns (addr: nat)
      requires Valid() && index < |header| && header[index] != []
      modifies this
      ensures Valid() && BlockSize(Unit(), index) > 0 && addr % BlockSize(Unit(), index) == 0
      ensures addr == old(header)[index][0] && header == old(header)[index := old(header)[index][1..]]
      ensures forall b: nat :: Cover(header, Unit(), b) + Within(addr, BlockSize(Unit(), index), b) == Cover(old(header), Unit(), b)
    {
      hide CoverIn, CoverFrom, BlockSize, Within;
      var list := header[index];
      assert ListOk(list, BlockSize(Unit(), index));
      addr := list[0];
      header := header[index := list[1..]];
      PoppedOk(list, BlockSize(Unit(), index));
      forall b: nat ensures Cover(header, Unit(), b) + Within(addr, BlockSize(Unit(), index), b) == Cover(old(header), Unit(), b) {
        CoverUpdate(old(header), Unit(), 0, index, list[1..], b);
        CoverConcat([addr], list[1..], BlockSize(Unit(), index), b);
        CoverOne(addr, BlockSize(Unit(), index), b);
        assert [addr] + list[1..] == list;
      }
    }

    /**
     alloc_node: a block of the power of two room at or above size, at a multiple of it.  Besides it only what is
     missing to a whole unit goes; the list it begins with holds blocks at least as large, whatever the unit is.
     */
    method AllocNode(size: nat) returns (addr: nat, room: nat, ghost index: nat)
      requires Valid() && size > 4 && unitBits >= 3 && Bits(size - 1) - 3 < MAX_BUDDY_HEADER_BITS && HasBlock(Bits(size - 1) - 3)
      modifies this
      ensures Valid() && room == Pow2(Bits(size - 1)) && size <= room < 2 * size && addr % room == 0
      ensures room < BlockSize(Unit(), MAX_BUDDY_HEADER_BITS)
      ensures Bits(size - 1) - 3 <= index < |old(header)| && forall k :: Bits(size - 1) - 3 <= k < index ==> old(header)[k] == []
      ensures old(header)[index] != [] && addr == old(header)[index][0] && BlockSize(Unit(), index) >= room && Unit() > 0
      ensures Gained(old(header)[index := old(header)[index][1..]], header, Unit(), UnitUp(addr + room), UnitDown(addr + BlockSize(Unit(), index)))
      ensures forall b: nat :: Cover(header, Unit(), b) + Within(addr, if room < Unit() then Unit() else room, b) == Cover(old(header), Unit(), b)
    {
      hide BlockSize, Cover, Pow2, Bits, Gained;
      var lvl := Bits(size - 1);
      Power(size);
      room := Pow2(lvl);
      var list := lvl - 3;
      ghost var at :| list <= at < |header| && header[at] != [];
      while header[list] == []
        invariant lvl - 3 <= list <= at && forall k :: lvl - 3 <= k < list ==> header[k] == []
        decreases at - list
      {
        list := list + 1;
      }
      index := list;
      addr := PopNode(list);
      var available := BlockSize(Unit(), list);
      RoomInBlock(addr, lvl, list);
      GainedNone(header, Unit(), UnitUp(addr + room), UnitDown(addr + available));
      if available != room {
        AddRange(addr + room, available - room);
      }
    }

    lemma RoomInBlock(addr: nat, lvl: nat, index: nat)
      requires unitBits >= 3 && 3 <= lvl <= index + 3 && index < MAX_BUDDY_HEADER_BITS
      requires BlockSize(Unit(), index) > 0 && addr % BlockSize(Unit(), index) == 0
      ensures var room, available := Pow2(lvl), BlockSize(Unit(), index);
              && room > 0 && addr % room == 0 && room <= available && Unit() > 0 && Unit() <= available
              && available < BlockSize(Unit(), MAX_BUDDY_HEADER_BITS)
              && UnitDown(addr + available) == addr + available
              && UnitUp(addr + room) == addr + if room < Unit() then Unit() else room
    {
      hide Pow2, BlockSize;
      var room, available, u := Pow2(lvl), BlockSize(Unit(), index), Unit();
      BlockIsPower(unitBits, index);
      BlockIsPower(unitBits, MAX_BUDDY_HEADER_BITS);
      PowDivides(lvl, unitBits + index);
      PowDivides(unitBits, unitBits + index);
      PowLess(unitBits + index, unitBits + MAX_BUDDY_HEADER_BITS);
      MultipleTrans(addr, available, room);
      MultipleTrans(addr, available, u);
      MultipleSum(addr, available, u);
      RoundExact(addr + available, 0, u);
      if lvl >= unitBits {
        PowDivides(unitBits, lvl);
        MultipleSum(addr, room, u);
        RoundExact(addr + room, u - 1, u);
      } else {
        PowDivides(lvl, unitBits);
        PowLess(lvl, unitBits);
        MultipleSum(addr, u, u);
        RoundExact(addr + u, room - 1, u);
      }
    }

    lemma HeaderSize()
      requires Valid()
      ensures |header| == MAX_BUDDY_HEADER_BITS
    {
    }

    lemma UnitIsPositive()
      ensures Unit() > 0
    {
      PowPositive(unitBits);
    }

    lemma Bounds(addr: nat, size: nat)
      requires Unit() > 0
      ensures UnitUp(addr) % Unit() == 0 && UnitDown(addr + size) % Unit() == 0
      ensures addr <= UnitUp(addr) && UnitDown(addr + size) <= addr + size
    {
      hide Pow2;
      RoundDown(addr + (Unit() - 1), Unit());
      RoundDown(addr + size, Unit());
    }
  }

  lemma BlockIsPower(unitBits: nat, index: nat)
    ensures BlockSize(Pow2(unitBits), index) == Pow2(unitBits + index)
  {
    PowAdd(unitBits, index);
  }

  /** The first list that alloc_node looks at fits the room exactly only when a unit has 8 bytes. */
  lemma FirstListSize(unitBits: nat, lvl: nat)
    requires unitBits >= 3 && lvl >= 3
    ensures BlockSize(Pow2(unitBits), lvl - 3) == Pow2(lvl) <==> unitBits == 3
  {
    hide Pow2, BlockSize;
    BlockIsPower(unitBits, lvl - 3);
    if unitBits > 3 {
      PowLess(lvl, unitBits + (lvl - 3));
    }
  }

  lemma {:induction false} PowLess(a: nat, b: nat)
    requires a < b
    ensures Pow2(a) < Pow2(b)
  {
    PowPositive(b - 1);
    if a + 1 < b {
      PowLess(a, b - 1);
    }
  }

  lemma Power(size: nat)
    requires size > 4
    ensures Bits(size - 1) >= 3 && size <= Pow2(Bits(size - 1)) < 2 * size
  {
    var l := Bits(size - 1);
    assert Pow2(l) == 2 * Pow2(l - 1);
  }

  /** Rounding a multiple, with less than a unit added, gives it back. */
  lemma RoundExact(n: nat, extra: nat, u: nat)
    requires u > 0 && n % u == 0 && extra < u
    ensures (n + extra) / u * u == n
  {
    RoundDown(n + extra, u);
    var m := (n + extra) / u * u;
    if m < n {
      Apart(m, n, u);
    } else if n < m {
      Apart(n, m, u);
    }
  }

  lemma PoppedOk(list: seq<nat>, size: nat)
    requires ListOk(list, size) && list != []
    ensures ListOk(list[1..], size)
  {
    var rest := list[1..];
    assert forall i :: 0 <= i < |rest| ==> rest[i] == list[i + 1];
  }

  lemma RoundDown(n: nat, u: nat)
    requires u > 0
    ensures n / u * u <= n < n / u * u + u && n / u * u % u == 0
  {
    var q := n / u;
    assert n == u * q + n % u && q * u == u * q;
    MultipleOf(u, q);
  }

  lemma EmptyLists(header: seq<seq<nat>>, unit: nat)
    requires forall k :: 0 <= k < |header| ==> header[k] == []
    ensures forall b: nat :: Cover(header, unit, b) == 0
  {
    forall b: nat ensures Cover(header, unit, b) == 0 {
      EmptyFrom(header, unit, 0, b);
    }
  }

  lemma {:induction false} EmptyFrom(header: seq<seq<nat>>, unit: nat, k: nat, b: nat)
    requires forall k :: 0 <= k < |header| ==> header[k] == []
    ensures CoverFrom(header, unit, k, b) == 0
    decreases |header| - k
  {
    if k < |header| {
      EmptyFrom(header, unit, k + 1, b);
    }
  }

  lemma InsertedOk(list: seq<nat>, link: nat, addr: nat, size: nat)
    requires ListOk(list, size) && link <= |list| && addr % size == 0
    requires (forall i :: 0 <= i < link ==> list[i] < addr) && (link < |list| ==> addr <= list[link])
    ensures ListOk(list[..link] + [addr] + list[link..], size)
  {
  }

  lemma InsertedCover(list: seq<nat>, link: nat, addr: nat, size: nat, b: nat)
    requires link <= |list|
    ensures CoverIn(list[..link] + [addr] + list[link..], size, b) == CoverIn(list, size, b) + Within(addr, size, b)
  {
    hide CoverIn, Within;
    CoverConcat(list[..link] + [addr], list[link..], size, b);
    CoverConcat(list[..link], [addr], size, b);
    CoverConcat(list[..link], list[link..], size, b);
    assert list == list[..link] + list[link..];
    CoverOne(addr, size, b);
  }

  /** The lower end is even in blocks by now; so if the upper one is not, there is a block between them. */
  lemma NotBoth(lo: nat, hi: nat, size: nat)
    requires size > 0 && lo <= hi && lo % (2 * size) == 0 && hi % size == 0 && BitSet(hi, size)
    ensures lo + size <= hi
  {
    Aligned(hi, size);
    if lo < hi {
      MultipleTrans2(lo, size);
      Apart(lo, hi, size);
    } else {
      assert lo == hi;
      OddNotEven(hi, size);
    }
  }

  lemma MultipleTrans2(a: nat, size: nat)
    requires size > 0 && a % (2 * size) == 0
    ensures a % size == 0
  {
    assert 2 * size == size * 2;
    MultipleOf(size, 2);
    MultipleTrans(a, 2 * size, size);
  }

  lemma Twice(a: nat, size: nat)
    requires size > 0 && a % (2 * size) == 0
    ensures a % size == 0
  {
    MultipleTrans2(a, size);
  }

  lemma OddNotEven(a: nat, size: nat)
    requires size > 0 && a % size == 0 && BitSet(a, size)
    ensures a % (2 * size) != 0
  {
    Aligned(a, size);
    if a % (2 * size) == 0 {
      Apart(a - size, a, 2 * size);
    }
  }

  // ----- the heap -----

  /** mem_header_t of a block that was handed out, and the room that the block has. */
  datatype MemHeader = MemHeader(size: nat, room: nat)

  /** Blocks handed out lie apart from each other and from all free blocks, and no byte is free twice. */
  ghost predicate HeapOk(header: seq<seq<nat>>, unit: nat, live: map<nat, MemHeader>) {
    && (forall b: nat :: Cover(header, unit, b) <= 1)
    && (forall mh, b: nat :: mh in live && mh <= b < mh + live[mh].room ==> Cover(header, unit, b) == 0)
    && (forall x, y :: x in live && y in live && x < y ==> x + live[x].room <= y)
    && (forall mh :: mh in live ==> live[mh].size + HEADER_SIZE <= live[mh].room < BlockSize(unit, MAX_BUDDY_HEADER_BITS))
  }

  class Heap {
    const buddy: BuddySystem
    // The headers in front of the blocks that are handed out; ptr_validate of each is its own address.
    var live: map<nat, MemHeader>

    constructor ()
      ensures Valid() && fresh(buddy) && live == map[] && buddy.unitBits == 5
    {
      buddy := new BuddySystem(5);
      live := map[];
    }

    ghost predicate Valid()
      reads this, buddy
    {
      buddy.Valid() && buddy.unitBits == 5 && HeapOk(buddy.header, buddy.Unit(), live)
    }

    /** How often a byte is in the free lists. */
    ghost function Free(b: nat): nat
      reads this, buddy
    {
      Cover(buddy.header, buddy.Unit(), b)
    }

    /** add_heap_range, for memory that the heap does not have yet */
    method AddHeapRange(addr: nat, size: nat)
      requires Valid() && size < BlockSize(buddy.Unit(), MAX_BUDDY_HEADER_BITS)
      requires forall b: nat :: addr <= b < addr + size ==> Cover(buddy.header, buddy.Unit(), b) == 0
      requires forall mh :: mh in live ==> mh + live[mh].room <= addr || addr + size <= mh
      modifies this, buddy
      ensures Valid() && live == old(live)
      ensures forall b: nat :: Free(b) == old(Free(b)) + Between(buddy.UnitUp(addr), buddy.UnitDown(addr + size), b)
      ensures Gained(old(buddy.header), buddy.header, buddy.Unit(), buddy.UnitUp(addr), buddy.UnitDown(addr + size))
    {
      hide BuddySystem.Valid, Gained, Cover, BlockSize, Pow2;
      buddy.UnitIsPositive();
      buddy.Bounds(addr, size);
      buddy.AddRange(addr, size);
    }

    /** malloc: the caller's bytes lie apart from those of every block that is handed out and from all free ones. */
    method Malloc(size: nat) returns (ptr: nat, ghost index: nat)
      requires Valid() && Bits(size + HEADER_SIZE - 1) - 3 < MAX_BUDDY_HEADER_BITS && Bits(size + HEADER_SIZE - 1) >= 3
      requires buddy.HasBlock(Bits(size + HEADER_SIZE - 1) - 3)
      modifies this, buddy
      ensures Valid() && ptr >= HEADER_SIZE && ptr - HEADER_SIZE !in old(live)
      ensures ptr - HEADER_SIZE in live && live == old(live)[ptr - HEADER_SIZE := live[ptr - HEADER_SIZE]] && live[ptr - HEADER_SIZE].size == size
      ensures var room := live[ptr - HEADER_SIZE].room;
              && room == Pow2(Bits(size + HEADER_SIZE - 1)) && (ptr - HEADER_SIZE) % room == 0
              && Bits(size + HEADER_SIZE - 1) - 3 <= index < |old(buddy.header)| && old(buddy.header)[index] != []
              && ptr - HEADER_SIZE == old(buddy.header)[index][0]
              && (forall k :: Bits(size + HEADER_SIZE - 1) - 3 <= k < index ==> old(buddy.header)[k] == [])
              && forall b: nat :: Free(b) + Within(ptr - HEADER_SIZE, if room < buddy.Unit() then buddy.Unit() else room, b) == old(Free(b))
    {
      hide BuddySystem.Valid, Gained, Cover, BlockSize, Pow2, Bits;
      ghost var before := buddy.header;
      var mh, room;
      mh, room, index := buddy.AllocNode(size + HEADER_SIZE);
      Taken(before, buddy.header, buddy.Unit(), live, mh, room, if room < buddy.Unit() then buddy.Unit() else room, size);
      live := live[mh := MemHeader(size, room)];
      ptr := mh + HEADER_SIZE;
    }

    /** free_len; len 0 stands for the size noted in the header, and so free is free_len with 0 */
    method FreeLen(ptr: nat, len: nat)
      requires Valid() && ptr >= HEADER_SIZE && ptr - HEADER_SIZE in live
      requires len == 0 || len == live[ptr - HEADER_SIZE].size
      modifies this, buddy
      ensures Valid() && live == old(live) - {ptr - HEADER_SIZE}
      ensures var mh, size := ptr - HEADER_SIZE, old(live)[ptr - HEADER_SIZE].size;
              && Gained(old(buddy.header), buddy.header, buddy.Unit(), buddy.UnitUp(mh), buddy.UnitDown(mh + size))
              && forall b: nat :: Free(b) == old(Free(b)) + Between(buddy.UnitUp(mh), buddy.UnitDown(mh + size), b)
    {
      hide BuddySystem.Valid, Gained, Cover, BlockSize, Pow2;
      var mh := ptr - HEADER_SIZE;
      var n := len;
      if n == 0 {
        n := live[mh].size;
      }
      buddy.UnitIsPositive();
      buddy.Bounds(mh, n);
      ghost var before := buddy.header;
      buddy.AddRange(mh, n);
      Returned(before, buddy.header, buddy.Unit(), live, mh, buddy.UnitUp(mh), buddy.UnitDown(mh + n));
      live := live - {mh};
    }
  }

  /** Of a block's room free gives back at most what lies up to its size: the header's bytes and the rest are lost. */
  lemma NeverAllBack(heap: Heap, mh: nat)
    requires heap.Valid() && mh in heap.live
    ensures heap.buddy.Unit() > 0 && mh <= heap.buddy.UnitUp(mh)
    ensures heap.buddy.UnitDown(mh + heap.live[mh].size) + HEADER_SIZE <= mh + heap.live[mh].room
  {
    heap.buddy.UnitIsPositive();
    heap.buddy.Bounds(mh, heap.live[mh].size);
  }

  lemma Taken(header: seq<seq<nat>>, header': seq<seq<nat>>, unit: nat, live: map<nat, MemHeader>, mh: nat, room: nat, gone: nat, size: nat)
    requires HeapOk(header, unit, live) && size + HEADER_SIZE <= room <= gone && room < BlockSize(unit, MAX_BUDDY_HEADER_BITS)
    requires forall b: nat :: Cover(header', unit, b) + Within(mh, gone, b) == Cover(header, unit, b)
    ensures mh !in live && HeapOk(header', unit, live[mh := MemHeader(size, room)])
  {
    hide Cover, Within, BlockSize;
    var live' := live[mh := MemHeader(size, room)];
    InsideIsOne(mh, gone);
    forall x | x in live ensures x + live[x].room <= mh || mh + room <= x {
      assert mh < x + live[x].room && x <= mh ==> Cover(header, unit, mh) == 0;
      assert Cover(header, unit, x) == 0;
      assert Cover(header', unit, x) + Within(mh, gone, x) == Cover(header, unit, x);
    }
  }

  lemma InsideIsOne(a: nat, size: nat)
    ensures forall b: nat :: a <= b < a + size ==> Within(a, size, b) == 1
  {
  }

  lemma Returned(header: seq<seq<nat>>, header': seq<seq<nat>>, unit: nat, live: map<nat, MemHeader>, mh: nat, lo: nat, hi: nat)
    requires HeapOk(header, unit, live) && mh in live && mh <= lo && hi <= mh + live[mh].size
    requires forall b: nat :: Cover(header', unit, b) == Cover(header, unit, b) + Between(lo, hi, b)
    ensures HeapOk(header', unit, live - {mh})
  {
    hide Cover, BlockSize;
    forall b: nat ensures Cover(header', unit, b) <= 1 {
      assert lo <= b < hi ==> Cover(header, unit, b) == 0;
    }
  }
}

/** The bitmaps of the block allocator: byte-stepping loops that stand for loops over single bits. */
module Bitmap {

  /** 1 << k in a byte. */
  function Mask(k: nat): bv8
    requires k < 8
  {
    if k == 0 then 1 else if k == 1 then 2 else if k == 2 then 4 else if k == 3 then 8
    else if k == 4 then 16 else if k == 5 then 32 else if k == 6 then 64 else 128
  }

  predicate HasBit(x: bv8, k: nat)
    requires k < 8
  {
    x & Mask(k) != 0
  }

  function WithBit(x: bv8, k: nat): bv8
    requires k < 8
  {
    x | Mask(k)
  }

  function WithoutBit(x: bv8, k: nat): bv8
    requires k < 8
  {
    x & !Mask(k)
  }

  predicate IsSet(bmap: seq<bv8>, bit: nat)
    requires bit < 8 * |bmap|
  {
    HasBit(bmap[bit / 8], bit % 8)
  }

  lemma MaskBits(x: bv8, k: nat, j: nat)
    requires k < 8 && j < 8
    ensures HasBit(WithBit(x, k), j) <==> k == j || HasBit(x, j)
    ensures HasBit(WithoutBit(x, k), j) <==> k != j && HasBit(x, j)
  {
  }

  lemma MaskIs(x: bv8, k: nat)
    requires k < 8
    ensures WithBit(x, k) == x | ((1 as bv8) << k) && WithoutBit(x, k) == x & !((1 as bv8) << k)
  {
    assert Mask(k) == (1 as bv8) << k;
  }

  lemma FullByte(x: bv8)
    ensures x == 0xFF <==> forall k: nat :: k < 8 ==> HasBit(x, k)
  {
    if x != 0xFF {
      assert !HasBit(x, 0) || !HasBit(x, 1) || !HasBit(x, 2) || !HasBit(x, 3)
          || !HasBit(x, 4) || !HasBit(x, 5) || !HasBit(x, 6) || !HasBit(x, 7);
    }
  }

  lemma EmptyByte(k: nat)
    requires k < 8
    ensures !HasBit(0, k)
  {
  }

  lemma SameBit(i: nat, j: nat)
    ensures i / 8 == j / 8 && i % 8 == j % 8 <==> i == j
  {
    assert i == i / 8 * 8 + i % 8 && j == j / 8 * 8 + j % 8;
  }

  lemma SetAt(bmap: seq<bv8>, bit: nat, i: nat)
    requires bit < 8 * |bmap| && i < 8 * |bmap|
    ensures IsSet(bmap[bit / 8 := WithBit(bmap[bit / 8], bit % 8)], i) <==> i == bit || IsSet(bmap, i)
    ensures IsSet(bmap[bit / 8 := WithoutBit(bmap[bit / 8], bit % 8)], i) <==> i != bit && IsSet(bmap, i)
  {
    hide HasBit, WithBit, WithoutBit;
    MaskBits(bmap[bit / 8], bit % 8, i % 8);
    SameBit(i, bit);
  }

  /** ext4_bmap_bit_set */
  method BitSet(bmap: array<bv8>, bit: nat)
    requires bit < 8 * bmap.Length
    modifies bmap
    ensures forall i :: 0 <= i < 8 * bmap.Length ==> (IsSet(bmap[..], i) <==> i == bit || IsSet(old(bmap[..]), i))
    ensures bmap[..] == old(bmap[..])[bit / 8 := old(bmap[bit / 8]) | ((1 as bv8) << (bit % 8))]
  {
    hide IsSet, WithBit, WithoutBit;
    MaskIs(bmap[bit / 8], bit % 8);
    ghost var before := bmap[..];
    bmap[bit / 8] := WithBit(bmap[bit / 8], bit % 8);
    assert bmap[..] == before[bit / 8 := WithBit(before[bit / 8], bit % 8)];
    forall i | 0 <= i < 8 * bmap.Length ensures IsSet(bmap[..], i) <==> i == bit || IsSet(before, i) {
      SetAt(before, bit, i);
    }
  }

  /** ext4_bmap_bit_clr */
  method BitClr(bmap: array<bv8>, bit: nat)
    requires bit < 8 * bmap.Length
    modifies bmap
    ensures forall i :: 0 <= i < 8 * bmap.Length ==> (IsSet(bmap[..], i) <==> i != bit && IsSet(old(bmap[..]), i))
    ensures bmap[..] == old(bmap[..])[bit / 8 := old(bmap[bit / 8]) & !((1 as bv8) << (bit % 8))]
  {
    hide IsSet, WithBit, WithoutBit;
    MaskIs(bmap[bit / 8], bit % 8);
    ghost var before := bmap[..];
    bmap[bit / 8] := WithoutBit(bmap[bit / 8], bit % 8);
    assert bmap[..] == before[bit / 8 := WithoutBit(before[bit / 8], bit % 8)];
    forall i | 0 <= i < 8 * bmap.Length ensures IsSet(bmap[..], i) <==> i != bit && IsSet(before, i) {
      SetAt(before, bit, i);
    }
  }

  /** Bits lo up to hi were cleared. */
  ghost predicate Cleared(before: seq<bv8>, after: seq<bv8>, lo: nat, hi: nat) {
    && |after| == |before|
    && forall i :: 0 <= i < 8 * |before| ==> (IsSet(after, i) <==> IsSet(before, i) && !(lo <= i < hi))
  }

  lemma ByteCleared(before: seq<bv8>, after: seq<bv8>, p: nat)
    requires p < |before| && after == before[p := 0]
    ensures Cleared(before, after, 8 * p, 8 * p + 8)
  {
    hide HasBit;
    forall i | 0 <= i < 8 * |before| ensures IsSet(after, i) <==> IsSet(before, i) && !(8 * p <= i < 8 * p + 8) {
      EmptyByte(i % 8);
      assert i / 8 == p <==> 8 * p <= i < 8 * p + 8;
    }
  }

  lemma ClearedMore(a: seq<bv8>, b: seq<bv8>, c: seq<bv8>, lo: nat, mid: nat, hi: nat)
    requires Cleared(a, b, lo, mid) && Cleared(b, c, mid, hi) && lo <= mid <= hi
    ensures Cleared(a, c, lo, hi)
  {
  }

  /** The single bits up to the first byte boundary, or up to the end of the range. */
  method FreePrefix(bmap: array<bv8>, sbit: nat, bcnt: nat) returns (i: nat, left: nat)
    requires sbit + bcnt <= 8 * bmap.Length
    modifies bmap
    ensures i + left == sbit + bcnt && sbit <= i && (left == 0 || i % 8 == 0)
    ensures Cleared(old(bmap[..]), bmap[..], sbit, i)
  {
    hide IsSet, Cleared;
    NoneCleared(bmap[..], sbit);
    i, left := sbit, bcnt;
    while i % 8 != 0
      invariant sbit <= i && i + left == sbit + bcnt && Cleared(old(bmap[..]), bmap[..], sbit, i)
      decreases left
    {
      if left == 0 {
        return;
      }
      ClearOne(bmap, old(bmap[..]), sbit, i);
      left := left - 1;
      i := i + 1;
    }
  }

  /** ext4_bmap_bits_free, where single bytes are the largest steps */
  method BitsFree(bmap: array<bv8>, sbit: nat, bcnt: nat)
    requires sbit + bcnt <= 8 * bmap.Length
    modifies bmap
    ensures Cleared(old(bmap[..]), bmap[..], sbit, sbit + bcnt)
  {
    hide IsSet, Cleared;
    ghost var before := bmap[..];
    var i, left := FreePrefix(bmap, sbit, bcnt);
    if left == 0 {
      return;
    }
    var p := i / 8;
    while left >= 8
      invariant sbit <= 8 * p && 0 <= left && 8 * p + left == sbit + bcnt && Cleared(before, bmap[..], sbit, 8 * p)
    {
      ghost var mid := bmap[..];
      bmap[p] := 0;
      assert bmap[..] == mid[p := 0];
      ByteCleared(mid, bmap[..], p);
      ClearedMore(before, mid, bmap[..], sbit, 8 * p, 8 * p + 8);
      p := p + 1;
      left := left - 8;
    }
    for k := 0 to left
      invariant Cleared(before, bmap[..], sbit, 8 * p + k)
    {
      ClearOne(bmap, before, sbit, 8 * p + k);
    }
  }

  lemma NoneCleared(bmap: seq<bv8>, sbit: nat)
    ensures Cleared(bmap, bmap, sbit, sbit)
  {
  }

  method ClearOne(bmap: array<bv8>, ghost before: seq<bv8>, ghost sbit: nat, bit: nat)
    requires sbit <= bit < 8 * bmap.Length && Cleared(before, bmap[..], sbit, bit)
    modifies bmap
    ensures Cleared(before, bmap[..], sbit, bit + 1)
  {
    BitClr(bmap, bit);
  }

  /** Some bit from lo on is clear before hi. */
  ghost predicate AnyClear(bmap: seq<bv8>, lo: nat, hi: nat)
    requires hi <= 8 * |bmap|
  {
    exists i :: lo <= i < hi && !IsSet(bmap, i)
  }

  /** The byte boundary at or behind sbit. */
  function NextByte(sbit: nat): nat { (sbit + 7) / 8 * 8 }

  function Least(a: nat, b: nat): nat { if a < b then a else b }

  /** All bits lo up to hi are set. */
  ghost predicate AllSet(bmap: seq<bv8>, lo: nat, hi: nat)
    requires hi <= 8 * |bmap|
  {
    forall i :: lo <= i < hi ==> IsSet(bmap, i)
  }

  lemma AllSetMore(bmap: seq<bv8>, lo: nat, mid: nat, hi: nat)
    requires lo <= mid <= hi <= 8 * |bmap| && AllSet(bmap, lo, mid) && AllSet(bmap, mid, hi)
    ensures AllSet(bmap, lo, hi)
  {
  }

  lemma NoneSet(bmap: seq<bv8>, lo: nat)
    requires lo <= 8 * |bmap|
    ensures AllSet(bmap, lo, lo)
  {
  }

  lemma OneSet(bmap: seq<bv8>, lo: nat, i: nat)
    requires lo <= i < 8 * |bmap| && AllSet(bmap, lo, i) && IsSet(bmap, i)
    ensures AllSet(bmap, lo, i + 1)
  {
  }

  /** The first loop of ext4_bmap_bit_find_clr: up to the byte boundary; i is the clear bit, or else where it stopped. */
  method FindPrefix(bmap: array<bv8>, sbit: nat, ebit: nat) returns (found: bool, i: nat)
    requires sbit <= ebit <= 8 * bmap.Length
    ensures sbit <= i <= Least(NextByte(sbit), ebit) && AllSet(bmap[..], sbit, i)
    ensures found ==> i < ebit && i < NextByte(sbit) && !IsSet(bmap[..], i)
    ensures !found ==> i == Least(NextByte(sbit), ebit)
  {
    hide IsSet, AllSet;
    i := sbit;
    NoneSet(bmap[..], sbit);
    var bcnt := ebit - sbit;
    while i % 8 != 0
      invariant sbit <= i <= NextByte(sbit) && 0 <= bcnt && i + bcnt == ebit && AllSet(bmap[..], sbit, i)
      decreases bcnt
    {
      if bcnt == 0 {
        return false, i;
      }
      if !IsSet(bmap[..], i) {
        return true, i;
      }
      OneSet(bmap[..], sbit, i);
      i := i + 1;
      bcnt := bcnt - 1;
    }
    found := false;
  }

  /** One byte, or what is left of the last one: the bits from sbit on. */
  method FindBits(bmap: array<bv8>, sbit: nat, n: nat) returns (found: bool, bitId: nat)
    requires sbit + n <= 8 * bmap.Length
    ensures sbit <= bitId <= sbit + n && AllSet(bmap[..], sbit, bitId)
    ensures if found then bitId < sbit + n && !IsSet(bmap[..], bitId) else bitId == sbit + n
  {
    hide IsSet, AllSet;
    NoneSet(bmap[..], sbit);
    for i := 0 to n
      invariant AllSet(bmap[..], sbit, sbit + i)
    {
      if !IsSet(bmap[..], sbit + i) {
        return true, sbit + i;
      }
      OneSet(bmap[..], sbit, sbit + i);
    }
    return false, sbit + n;
  }

  /** The byte steps, from a byte boundary on. */
  method FindBytes(bmap: array<bv8>, sbit: nat, ebit: nat) returns (found: bool, bitId: nat)
    requires sbit % 8 == 0 && sbit <= ebit <= 8 * bmap.Length
    ensures sbit <= bitId <= ebit && AllSet(bmap[..], sbit, bitId)
    ensures if found then bitId < ebit && !IsSet(bmap[..], bitId) else bitId == ebit
  {
    hide IsSet, AllSet;
    NoneSet(bmap[..], sbit);
    var p, bcnt := sbit / 8, ebit - sbit;
    while bcnt >= 8
      invariant sbit <= 8 * p && 0 <= bcnt && 8 * p + bcnt == ebit && AllSet(bmap[..], sbit, 8 * p)
    {
      if bmap[p] != 0xFF {
        found, bitId := FindBits(bmap, 8 * p, 8);
        AllSetMore(bmap[..], sbit, 8 * p, bitId);
        if found {
          return;
        }
      } else {
        ByteFull(bmap[..], p);
        AllSetMore(bmap[..], sbit, 8 * p, 8 * p + 8);
      }
      p := p + 1;
      bcnt := bcnt - 8;
    }
    found, bitId := FindBits(bmap, 8 * p, bcnt);
    AllSetMore(bmap[..], sbit, 8 * p, bitId);
  }

  /**
   ext4_bmap_bit_find_clr.  It finds a clear bit whenever there is one.  The bit it reports is the first clear one,
   except that for a clear bit found before the first byte boundary it reports sbit.
   */
  method BitFindClr(bmap: array<bv8>, sbit: nat, ebit: nat) returns (found: bool, bitId: nat)
    requires sbit <= ebit <= 8 * bmap.Length
    ensures found <==> AnyClear(bmap[..], sbit, ebit)
    ensures found ==> sbit <= bitId < ebit
    ensures found ==> (!IsSet(bmap[..], bitId) <==>
      !IsSet(bmap[..], sbit) || !AnyClear(bmap[..], sbit, Least(NextByte(sbit), ebit)))
    ensures found && !IsSet(bmap[..], bitId) ==> AllSet(bmap[..], sbit, bitId)
  {
    hide IsSet;
    var i;
    found, i := FindPrefix(bmap, sbit, ebit);
    if found {
      return true, sbit;
    }
    if i == ebit {
      return false, 0;
    }
    found, bitId := FindBytes(bmap, i, ebit);
    AllSetMore(bmap[..], sbit, i, bitId);
  }

  lemma BitOfByte(bmap: seq<bv8>, p: nat, k: nat)
    requires p < |bmap| && k < 8
    ensures IsSet(bmap, 8 * p + k) == HasBit(bmap[p], k)
  {
    hide HasBit;
    assert (8 * p + k) / 8 == p && (8 * p + k) % 8 == k;
  }

  lemma ByteFull(bmap: seq<bv8>, p: nat)
    requires p < |bmap| && bmap[p] == 0xFF
    ensures AllSet(bmap, 8 * p, 8 * p + 8)
  {
    hide HasBit, IsSet;
    FullByte(bmap[p]);
    forall j | 8 * p <= j < 8 * p + 8 ensures IsSet(bmap, j) {
      BitOfByte(bmap, p, j - 8 * p);
    }
  }
}

/** qsort_r: a Shell sort of nel elements of width bytes each, in place, by swapping bytes. */
module ShellSort {

  type Bytes = seq<bv8>

  /** What a comparator of the C library promises: any two elements compare, and the order is transitive. */
  ghost predicate Preorder(comp: (Bytes, Bytes) -> int) {
    && (forall x, y :: comp(x, y) <= 0 || comp(y, x) <= 0)
    && forall x, y, z :: comp(x, y) <= 0 && comp(y, z) <= 0 ==> comp(x, z) <= 0
  }

  /** The elements that the bytes make up. */
  ghost function Elems(b: Bytes, width: nat): seq<Bytes>
    requires width > 0
  {
    if |b| < width then [] else [b[..width]] + Elems(b[width..], width)
  }

  ghost predicate Sorted(es: seq<Bytes>, comp: (Bytes, Bytes) -> int) {
    forall p, q :: 0 <= p < q < |es| ==> comp(es[p], es[q]) <= 0
  }

  function Times(k: nat, width: nat): nat { k * width }

  lemma TimesNext(k: nat, width: nat)
    ensures Times(k + 1, width) == Times(k, width) + width && Times(0, width) == 0 && Times(1, width) == width
    ensures k > 0 ==> Times(k - 1, width) + width == Times(k, width)
  {
  }

  lemma TimesAdd(a: nat, b: nat, width: nat)
    ensures Times(a + b, width) == Times(a, width) + Times(b, width)
  {
  }

  lemma {:induction false} TimesOrder(a: nat, b: nat, width: nat)
    ensures a < b ==> Times(a, width) + width <= Times(b, width)
    ensures a <= b ==> Times(a, width) <= Times(b, width)
  {
    hide Times;
    if a < b {
      TimesNext(b - 1, width);
      TimesOrder(a, b - 1, width);
    }
  }

  lemma {:induction false} ElemsAt(b: Bytes, width: nat, n: nat)
    requires width > 0 && |b| == Times(n, width)
    ensures |Elems(b, width)| == n
    ensures forall k :: 0 <= k < n ==> Times(k, width) + width <= |b| && Elems(b, width)[k] == b[Times(k, width)..Times(k, width) + width]
  {
    hide Times;
    TimesNext(0, width);
    if n > 0 {
      TimesNext(n - 1, width);
      ElemsAt(b[width..], width, n - 1);
      forall k | 0 <= k < n
        ensures Times(k, width) + width <= |b| && Elems(b, width)[k] == b[Times(k, width)..Times(k, width) + width]
      {
        TimesOrder(k, n, width);
        if k > 0 {
          TimesNext(k - 1, width);
          var p := Times(k - 1, width);
          assert Elems(b, width)[k] == Elems(b[width..], width)[k - 1];
          assert b[width..][p..p + width] == b[p + width..p + width + width];
        }
      }
    }
  }

  /** The bytes from p and from q on are exchanged. */
  ghost predicate Exchanged(b: Bytes, b': Bytes, p: nat, q: nat, width: nat) {
    && |b'| == |b| && p + width <= q && q + width <= |b|
    && b'[p..p + width] == b[q..q + width] && b'[q..q + width] == b[p..p + width]
    && b'[..p] == b[..p] && b'[p + width..q] == b[p + width..q] && b'[q + width..] == b[q + width..]
  }

  lemma SwapElems(b: Bytes, b': Bytes, width: nat, n: nat, x: nat, y: nat)
    requires width > 0 && |b| == Times(n, width) && x < y < n && Exchanged(b, b', Times(x, width), Times(y, width), width)
    ensures |Elems(b, width)| == n
    ensures Elems(b', width) == Elems(b, width)[x := Elems(b, width)[y]][y := Elems(b, width)[x]]
  {
    hide Times, Elems;
    ElemsAt(b, width, n);
    ElemsAt(b', width, n);
    var es, es' := Elems(b, width), Elems(b', width);
    forall k | 0 <= k < n ensures es'[k] == es[x := es[y]][y := es[x]][k] {
      TimesOrder(k, x, width);
      TimesOrder(x, k, width);
      TimesOrder(k, y, width);
      TimesOrder(y, k, width);
      BlockAfter(b, b', Times(x, width), Times(y, width), Times(k, width), width);
    }
  }

  lemma BlockAfter(b: Bytes, b': Bytes, p: nat, q: nat, r: nat, width: nat)
    requires Exchanged(b, b', p, q, width) && r + width <= |b|
    requires r == p || r + width <= p || p + width <= r
    requires r == q || r + width <= q || q + width <= r
    ensures b'[r..r + width] == if r == p then b[q..q + width] else if r == q then b[p..p + width] else b[r..r + width]
  {
    if r == p || r == q {
    } else if r < p {
      assert b'[r..r + width] == b'[..p][r..r + width] == b[..p][r..r + width];
    } else if r < q {
      Within(b, p + width, q, r, width);
      Within(b', p + width, q, r, width);
    } else {
      Within(b, q + width, |b|, r, width);
      Within(b', q + width, |b|, r, width);
    }
  }

  lemma Within(b: Bytes, lo: nat, hi: nat, r: nat, width: nat)
    requires lo <= r && r + width <= hi <= |b|
    ensures b[r..r + width] == b[lo..hi][r - lo..r - lo + width]
  {
    var s, t := b[lo..hi], r - lo;
    var u, v := b[r..r + width], s[t..t + width];
    forall i | 0 <= i < width ensures u[i] == v[i] {
      assert s[t + i] == b[lo + (t + i)];
    }
    assert u == v;
  }

  lemma SwapPermutes(es: seq<Bytes>, x: nat, y: nat)
    requires x < y < |es|
    ensures multiset(es[x := es[y]][y := es[x]]) == multiset(es)
  {
  }

  /** The innermost loop: two elements change places, byte by byte. */
  method Swap(base: array<bv8>, a: nat, b: nat, width: nat)
    requires width > 0 && a + width <= b && b + width <= base.Length
    modifies base
    ensures Exchanged(old(base[..]), base[..], a, b, width)
  {
    ghost var before := base[..];
    var k, a', b' := width, a, b;
    while k > 0
      invariant 0 <= k <= width && a' == a + (width - k) && b' == b + (width - k)
      invariant base[a..a'] == before[b..b'] && base[b..b'] == before[a..a']
      invariant base[..a] == before[..a] && base[a'..b] == before[a'..b] && base[b'..] == before[b'..]
    {
      assert base[a'] == base[a'..b][0] == before[a'] && base[b'] == base[b'..][0] == before[b'];
      ghost var mid := base[..];
      var tmp := base[a'];
      base[a'] := base[b'];
      base[b'] := tmp;
      assert base[a'..b][1..] == mid[a'..b][1..] && base[b'..][1..] == mid[b'..][1..];
      a', b', k := a' + 1, b' + 1, k - 1;
    }
  }

  /** Up to element last everything is in order, except that element x may belong further to the front. */
  ghost predicate Sinking(es: seq<Bytes>, comp: (Bytes, Bytes) -> int, x: nat, last: nat) {
    && x <= last < |es|
    && forall p, q :: 0 <= p < q <= last && q != x ==> comp(es[p], es[q]) <= 0
  }

  ghost predicate SortedTo(es: seq<Bytes>, comp: (Bytes, Bytes) -> int, n: nat) {
    n <= |es| && forall p, q :: 0 <= p < q < n ==> comp(es[p], es[q]) <= 0
  }

  lemma SinkStep(es: seq<Bytes>, comp: (Bytes, Bytes) -> int, x: nat, last: nat)
    requires Preorder(comp) && Sinking(es, comp, x, last) && x > 0
    ensures comp(es[x - 1], es[x]) <= 0 ==> SortedTo(es, comp, last + 1)
    ensures comp(es[x - 1], es[x]) > 0 ==> Sinking(es[x - 1 := es[x]][x := es[x - 1]], comp, x - 1, last)
  {
    var a, b := es[x - 1], es[x];
    if comp(a, b) <= 0 {
      forall p, q | 0 <= p < q <= last ensures comp(es[p], es[q]) <= 0 {
        if q == x && p < x - 1 {
          assert comp(es[p], a) <= 0;
        }
      }
    } else {
      assert comp(b, a) <= 0;
    }
  }

  lemma SinkEnds(es: seq<Bytes>, comp: (Bytes, Bytes) -> int, last: nat)
    requires Sinking(es, comp, 0, last)
    ensures SortedTo(es, comp, last + 1)
  {
  }

  lemma SinkBegins(es: seq<Bytes>, comp: (Bytes, Bytes) -> int, last: nat)
    requires SortedTo(es, comp, last) && last < |es|
    ensures Sinking(es, comp, last, last)
  {
  }

  /** Where an element and the one a gap before it lie. */
  lemma TwoElems(b: Bytes, width: nat, n: nat, g: nat, y: nat)
    requires width > 0 && |b| == Times(n, width) && y < n && 0 < g && Times(y, width) >= Times(g, width)
    ensures g <= y && |Elems(b, width)| == n && Times(y, width) - Times(g, width) == Times(y - g, width)
    ensures Times(y - g, width) + width <= Times(y, width) && Times(y, width) + width <= |b|
    ensures Elems(b, width)[y - g] == b[Times(y - g, width)..Times(y - g, width) + width]
    ensures Elems(b, width)[y] == b[Times(y, width)..Times(y, width) + width]
  {
    hide Times, Elems;
    TimesOrder(y, g, width);
    TimesAdd(y - g, g, width);
    ElemsAt(b, width, n);
    TimesOrder(y - g, y, width);
  }

  /** One step of the middle loop: the element at j + wgap is compared with the one at j, and they change places if it is smaller. */
  method CompareSwap(base: array<bv8>, width: nat, wgap: nat, j: nat, comp: (Bytes, Bytes) -> int, ghost n: nat, ghost g: nat,
                     ghost y: nat, ghost x: nat) returns (done: bool)
    requires width > 0 && base.Length == Times(n, width) && y < n && 0 < g && wgap == Times(g, width) && j + wgap == Times(y, width)
    requires Preorder(comp) && (g == 1 ==> Sinking(Elems(base[..], width), comp, y, x))
    modifies base
    ensures multiset(Elems(base[..], width)) == multiset(old(Elems(base[..], width))) && |Elems(base[..], width)| == n
    ensures g <= y && j == Times(y - g, width)
    ensures g == 1 && done ==> SortedTo(Elems(base[..], width), comp, x + 1)
    ensures g == 1 && !done ==> Sinking(Elems(base[..], width), comp, y - g, x)
  {
    hide Times, Elems, Preorder, Sinking, SortedTo, Exchanged;
    ghost var b := base[..];
    ghost var es := Elems(b, width);
    TwoElems(b, width, n, g, y);
    if g == 1 {
      SinkStep(es, comp, y, x);
    }
    if comp(base[j..j + width], base[j + wgap..j + wgap + width]) <= 0 {
      return true;
    }
    Swap(base, j, j + wgap, width);
    SwapElems(b, base[..], width, n, y - g, y);
    SwapPermutes(es, y - g, y);
    done := false;
  }

  /**
   The middle loop: the element at byte i moves to the front in steps of wgap bytes as long as it is smaller.
   With a gap of one element this inserts it into the sorted elements before it.
   */
  method Sink(base: array<bv8>, width: nat, wgap: nat, i: nat, comp: (Bytes, Bytes) -> int, ghost n: nat, ghost g: nat, ghost x: nat)
    requires width > 0 && base.Length == Times(n, width) && wgap == Times(g, width) && i == Times(x, width) && 0 < g <= x < n
    requires Preorder(comp) && (g == 1 ==> SortedTo(Elems(base[..], width), comp, x))
    modifies base
    ensures multiset(Elems(base[..], width)) == multiset(old(Elems(base[..], width))) && |Elems(base[..], width)| == n
    ensures g == 1 ==> SortedTo(Elems(base[..], width), comp, x + 1)
  {
    hide Times, Elems, Preorder, Sinking, SortedTo;
    ElemsAt(base[..], width, n);
    if g == 1 {
      SinkBegins(Elems(base[..], width), comp, x);
    }
    ghost var y: nat := x;
    var j := i;
    TimesOrder(g, x, width);
    TimesOrder(0, g, width);
    TimesNext(0, width);
    while j >= wgap
      invariant y <= x && j == Times(y, width) && |Elems(base[..], width)| == n
      invariant multiset(Elems(base[..], width)) == multiset(old(Elems(base[..], width)))
      invariant g == 1 ==> Sinking(Elems(base[..], width), comp, y, x)
      decreases y
    {
      j := j - wgap;
      var done := CompareSwap(base, width, wgap, j, comp, n, g, y, x);
      if done {
        return;
      }
      y := y - g;
    }
    if g == 1 {
      TimesOrder(1, y, width);
      TimesNext(0, width);
      SinkEnds(Elems(base[..], width), comp, x);
    }
  }

  /** One pass over the elements with a gap of g; with a gap of one element it sorts. */
  method Pass(base: array<bv8>, width: nat, wgap: nat, comp: (Bytes, Bytes) -> int, ghost n: nat, ghost g: nat)
    requires width > 0 && base.Length == Times(n, width) && wgap == Times(g, width) && 0 < g < n && Preorder(comp)
    modifies base
    ensures multiset(Elems(base[..], width)) == multiset(old(Elems(base[..], width)))
    ensures g == 1 ==> Sorted(Elems(base[..], width), comp)
  {
    hide Times, Elems, Preorder, Sorted;
    ElemsAt(base[..], width, n);
    ghost var x: nat := g;
    var i := wgap;
    TimesOrder(g, n, width);
    while i < base.Length
      invariant g <= x <= n && i == Times(x, width) && |Elems(base[..], width)| == n
      invariant multiset(Elems(base[..], width)) == multiset(old(Elems(base[..], width)))
      invariant g == 1 ==> SortedTo(Elems(base[..], width), comp, x)
      decreases base.Length - i
    {
      TimesOrder(n, x, width);
      Sink(base, width, wgap, i, comp, n, g, x);
      TimesNext(x, width);
      i := i + width;
      x := x + 1;
    }
    TimesOrder(x, n, width);
    if g == 1 {
      AllSorted(Elems(base[..], width), comp);
    }
  }

  lemma AllSorted(es: seq<Bytes>, comp: (Bytes, Bytes) -> int)
    requires SortedTo(es, comp, |es|)
    ensures Sorted(es, comp)
  {
  }

  lemma FewSorted(es: seq<Bytes>, comp: (Bytes, Bytes) -> int)
    requires |es| <= 1
    ensures Sorted(es, comp)
  {
  }

  /** The gaps: each is three times the next one and one more, in elements. */
  ghost predicate Gap(g: nat) { g == 1 || (g > 1 && g % 3 == 1 && Gap(g / 3)) }

  lemma NextGap(g: nat, width: nat)
    requires Gap(g) && width > 0
    ensures (Times(g, width) - width) / 3 == Times(if g == 1 then 0 else g / 3, width)
    ensures g > 1 ==> Gap(g / 3) && 0 < g / 3 < g
    ensures Gap(3 * g + 1)
  {
    if g > 1 {
      var h := g / 3;
      assert g == 3 * h + 1;
      assert g * width - width == 3 * (h * width);
    }
  }

  /** qsort_r */
  method Sort(base: array<bv8>, nel: nat, width: nat, comp: (Bytes, Bytes) -> int)
    requires base.Length == Times(nel, width) && Preorder(comp)
    modifies base
    ensures width > 0 ==> multiset(Elems(base[..], width)) == multiset(old(Elems(base[..], width)))
    ensures width > 0 ==> Sorted(Elems(base[..], width), comp)
  {
    hide Times, Elems, Sorted, Preorder, Gap;
    if nel > 1 && width > 0 {
      var gap := 0;
      FirstGap();
      while true
        invariant 0 <= gap && (gap == 0 || (Gap(gap) && gap < (nel - 1) / 3)) && base[..] == old(base[..])
        decreases nel - gap
      {
        if gap > 0 {
          NextGap(gap, width);
        }
        gap := 3 * gap + 1;
        if !(gap < (nel - 1) / 3) {
          assert gap < nel;
          break;
        }
      }
      ghost var g: nat := gap;
      var wgap := gap * width;
      TimesIs(gap, width);
      while true
        invariant 0 < g < nel && Gap(g) && wgap == Times(g, width)
        invariant multiset(Elems(base[..], width)) == multiset(old(Elems(base[..], width)))
        decreases g
      {
        Pass(base, width, wgap, comp, nel, g);
        NextGap(g, width);
        TimesNext(0, width);
        if g > 1 {
          TimesOrder(0, g / 3, width);
        }
        wgap := (wgap - width) / 3;
        if wgap == 0 {
          break;
        }
        g := g / 3;
      }
    } else if width > 0 {
      ElemsAt(base[..], width, nel);
      FewSorted(Elems(base[..], width), comp);
    }
  }

  lemma FirstGap()
    ensures Gap(1)
  {
  }

  lemma TimesIs(k: nat, width: nat)
    ensures Times(k, width) == k * width
  {
  }
}

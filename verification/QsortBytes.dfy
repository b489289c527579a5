/**
  `uclibc_qsort` (c/cl_qsort.c) as it is written: in place on bytes, with byte offsets and
  byte gaps in `size_t`, and elements swapped byte by byte.  Every operation on `size_t` is
  checked by Dafny to stay in range.  The nested loops are one method each.
 */
module QsortBytes {
  import opened Bytes
  import opened Shellsort
  import opened ShellsortTheorem
  import opened ShellsortMoves
  import opened ShellsortTotal

  newtype size_t = x: int | 0 <= x < 0x1_0000_0000_0000_0000

  const SIZE_MAX: size_t := 0xFFFF_FFFF_FFFF_FFFF

  type Comparator = (seq<byte>, seq<byte>) -> int

  // ---------- bytes as elements ----------

  /** The byte offset of element `q`; see `OffsetIsProduct`. */
  function Offset(q: nat, w: nat): nat {
    if q == 0 then 0 else Offset(q - 1, w) + w
  }

  lemma {:induction false} OffsetIsProduct(q: nat, w: nat)
    ensures Offset(q, w) == q * w
  {
    if q > 0 {
      OffsetIsProduct(q - 1, w);
    }
  }

  lemma {:induction false} OffsetAdds(x: nat, y: nat, w: nat)
    ensures Offset(x + y, w) == Offset(x, w) + Offset(y, w)
  {
    if y > 0 {
      OffsetAdds(x, y - 1, w);
    }
  }

  /** Different elements do not overlap. */
  lemma OffsetOrder(x: nat, y: nat, w: nat)
    requires 0 < w
    ensures x < y <==> Offset(x, w) + w <= Offset(y, w)
    ensures x < y <==> Offset(x, w) < Offset(y, w)
  {
    if x < y {
      OffsetAdds(x + 1, y - x - 1, w);
    } else {
      OffsetAdds(y, x - y, w);
    }
  }

  /** The `w` bytes at offset `o`. */
  function Slice(a: seq<byte>, o: int, w: nat): seq<byte> {
    if 0 <= o && o + w <= |a| then a[o..o + w] else []
  }

  /** The first `n` elements of width `w`. */
  function Blocks(a: seq<byte>, n: nat, w: nat): (r: seq<seq<byte>>)
    ensures |r| == n
  {
    if n == 0 then [] else Blocks(a, n - 1, w) + [Slice(a, Offset(n - 1, w), w)]
  }

  lemma {:induction false} BlockAt(a: seq<byte>, n: nat, w: nat, q: nat)
    requires q < n
    ensures Blocks(a, n, w)[q] == Slice(a, Offset(q, w), w)
  {
    if q < n - 1 {
      BlockAt(a, n - 1, w, q);
    }
  }

  /** `t` is `s` with the `w` bytes at `a` and at `b` exchanged. */
  ghost predicate SlicesExchanged(s: seq<byte>, t: seq<byte>, a: nat, b: nat, w: nat)
    requires a + w <= b && b + w <= |s|
  {
    && |t| == |s|
    && (forall p {:trigger t[p]} :: a <= p < a + w ==> t[p] == s[p + (b - a)])
    && (forall p {:trigger t[p]} :: b <= p < b + w ==> t[p] == s[p - (b - a)])
    && (forall p {:trigger t[p]} :: 0 <= p < |s| && !(a <= p < a + w) && !(b <= p < b + w) ==> t[p] == s[p])
  }

  lemma ExchangedSlices(s: seq<byte>, t: seq<byte>, a: nat, b: nat, w: nat, o: nat)
    requires a + w <= b && b + w <= |s| && SlicesExchanged(s, t, a, b, w)
    ensures Slice(t, a, w) == Slice(s, b, w) && Slice(t, b, w) == Slice(s, a, w)
    ensures (o + w <= a || a + w <= o) && (o + w <= b || b + w <= o) ==> Slice(t, o, w) == Slice(s, o, w)
  {
  }

  /** Exchanging the bytes of two elements swaps the elements and tears none. */
  lemma ExchangedBlocks(s: seq<byte>, t: seq<byte>, n: nat, w: nat, i: nat, j: nat)
    requires 0 < w && i < j < n && Offset(i, w) + w <= Offset(j, w) && Offset(j, w) + w <= |s|
    requires SlicesExchanged(s, t, Offset(i, w), Offset(j, w), w)
    ensures Blocks(t, n, w) == Swap(Blocks(s, n, w), i, j)
  {
    forall q | 0 <= q < n ensures Blocks(t, n, w)[q] == Swap(Blocks(s, n, w), i, j)[q] {
      OffsetOrder(q, i, w);
      OffsetOrder(i, q, w);
      OffsetOrder(q, j, w);
      OffsetOrder(j, q, w);
      ExchangedSlices(s, t, Offset(i, w), Offset(j, w), w, Offset(q, w));
      BlockAt(t, n, w, q);
      BlockAt(s, n, w, q);
      BlockAt(s, n, w, i);
      BlockAt(s, n, w, j);
    }
  }

  // ---------- the loops ----------

  /** The byte swap of the elements at `a` and `b`. */
  method SwapBytes(base: array<byte>, a: size_t, b: size_t, width: size_t)
    requires 0 < width && a as int + width as int <= b as int && b as int + width as int <= base.Length
    requires b as int + width as int <= SIZE_MAX as int
    modifies base
    ensures SlicesExchanged(old(base[..]), base[..], a as int, b as int, width as int)
  {
    var pa, pb, k := a, b, width;
    ghost var before := base[..];
    while true
      invariant 0 < k <= width && pa == a + (width - k) && pb == b + (width - k)
      invariant forall p :: a as int <= p < pa as int ==> base[p] == before[p + (b - a) as int]
      invariant forall p :: b as int <= p < pb as int ==> base[p] == before[p - (b - a) as int]
      invariant forall p :: 0 <= p < base.Length && !(a as int <= p < pa as int) && !(b as int <= p < pb as int) ==> base[p] == before[p]
      decreases k
    {
      var tmp := base[pa];
      base[pa] := base[pb];
      base[pb] := tmp;
      pa, pb, k := pa + 1, pb + 1, k - 1;
      if k == 0 {
        break;
      }
    }
  }

  /** `n` elements of `width` bytes, within the array and within `size_t`. */
  ghost predicate Fits(len: nat, n: nat, width: size_t) {
    0 < width && Offset(n, width as nat) <= len && Offset(n, width as nat) <= SIZE_MAX as int
  }

  /** The array after sorting work on its first `n` elements: `bs` there, and the rest untouched. */
  ghost predicate Holds(s: seq<byte>, t: seq<byte>, n: nat, w: nat, bs: seq<seq<byte>>) {
    && Blocks(t, n, w) == bs
    && |s| == |t|
    && forall p {:trigger t[p]} :: Offset(n, w) <= p < |s| ==> t[p] == s[p]
  }

  /** The two elements a step of the innermost loop looks at. */
  lemma Neighbours(len: nat, n: nat, w: nat, qj: nat, gap: nat)
    requires 0 < w && 0 < gap <= qj < n && Offset(n, w) <= len
    ensures Offset(qj - gap, w) == Offset(qj, w) - Offset(gap, w)
    ensures Offset(qj - gap, w) + w <= Offset(qj, w) && Offset(qj, w) + w <= Offset(n, w)
    ensures Offset(qj - gap, w) >= Offset(gap, w) <==> qj - gap >= gap
  {
    OffsetAdds(qj - gap, gap, w);
    OffsetOrder(qj - gap, qj, w);
    OffsetOrder(qj, n, w);
    OffsetOrder(qj - gap, gap, w);
  }

  lemma HoldsTrans(s: seq<byte>, t: seq<byte>, u: seq<byte>, n: nat, w: nat, bs: seq<seq<byte>>, cs: seq<seq<byte>>)
    requires Holds(s, t, n, w, bs) && Holds(t, u, n, w, cs)
    ensures Holds(s, u, n, w, cs)
  {
  }

  /** The comparison of two elements, and their swap if they are out of order. */
  method CompareAndSwap(base: array<byte>, a: size_t, b: size_t, width: size_t, comp: Comparator,
                        ghost n: nat, ghost qa: nat, ghost qb: nat) returns (inOrder: bool)
    requires Fits(base.Length, n, width) && qa < qb < n
    requires a as int == Offset(qa, width as nat) && b as int == Offset(qb, width as nat)
    modifies base
    ensures var bs := Blocks(old(base[..]), n, width as nat);
            && (inOrder <==> comp(bs[qa], bs[qb]) <= 0)
            && Holds(old(base[..]), base[..], n, width as nat, if inOrder then bs else Swap(bs, qa, qb))
  {
    ghost var w := width as nat;
    ghost var before := base[..];
    OffsetOrder(qa, qb, w);
    OffsetOrder(qb, n, w);
    ComparedBlocks(before, n, w, qa, qb);
    inOrder := comp(base[a..a + width], base[b..b + width]) <= 0;
    if !inOrder {
      SwapBytes(base, a, b, width);
      SwapHolds(before, base[..], n, w, qa, qb);
    }
  }

  lemma ComparedBlocks(s: seq<byte>, n: nat, w: nat, qa: nat, qb: nat)
    requires 0 < w && qa < qb < n && Offset(n, w) <= |s|
    ensures Offset(qa, w) + w <= Offset(qb, w) && Offset(qb, w) + w <= |s|
    ensures Blocks(s, n, w)[qa] == s[Offset(qa, w)..Offset(qa, w) + w]
    ensures Blocks(s, n, w)[qb] == s[Offset(qb, w)..Offset(qb, w) + w]
  {
    OffsetOrder(qa, qb, w);
    OffsetOrder(qb, n, w);
    BlockAt(s, n, w, qa);
    BlockAt(s, n, w, qb);
  }

  lemma SwapHolds(s: seq<byte>, t: seq<byte>, n: nat, w: nat, qa: nat, qb: nat)
    requires 0 < w && qa < qb < n && Offset(n, w) <= |s|
    requires Offset(qa, w) + w <= Offset(qb, w) && Offset(qb, w) + w <= Offset(n, w)
    requires SlicesExchanged(s, t, Offset(qa, w), Offset(qb, w), w)
    ensures Holds(s, t, n, w, Swap(Blocks(s, n, w), qa, qb))
  {
    ExchangedBlocks(s, t, n, w, qa, qb);
  }

  /** The innermost loop, from the element at byte offset `i` downwards. */
  method SiftDown(base: array<byte>, i: size_t, wgap: size_t, width: size_t, comp: Comparator,
                  ghost n: nat, ghost qi: nat, ghost gap: nat) returns (ghost moves: nat)
    requires Fits(base.Length, n, width) && 0 < gap <= qi < n
    requires i as int == Offset(qi, width as nat) && wgap as int == Offset(gap, width as nat)
    modifies base
    ensures Holds(old(base[..]), base[..], n, width as nat, Sift(Blocks(old(base[..]), n, width as nat), qi, gap, comp))
    ensures moves == SiftMoves(Blocks(old(base[..]), n, width as nat), qi, gap, comp)
  {
    var j := i;
    ghost var w := width as nat;
    ghost var first := base[..];
    ghost var all := Blocks(first, n, w);
    ghost var qj, cur := qi, all;
    moves := 0;
    while true
      invariant gap <= qj <= qi && j as int == Offset(qj, w)
      invariant |cur| == n && Holds(first, base[..], n, w, cur)
      invariant Sift(cur, qj, gap, comp) == Sift(all, qi, gap, comp)
      invariant moves + SiftMoves(cur, qj, gap, comp) == SiftMoves(all, qi, gap, comp)
      decreases qj
    {
      ghost var before, next := base[..], Swap(cur, qj - gap, qj);
      Neighbours(base.Length, n, w, qj, gap);
      j := j - wgap;
      var inOrder := CompareAndSwap(base, j, j + wgap, width, comp, n, qj - gap, qj);
      HoldsTrans(first, before, base[..], n, w, cur, if inOrder then cur else next);
      SiftUnfolds(cur, qj, gap, comp);
      if inOrder {
        break;
      }
      qj, cur, moves := qj - gap, next, moves + 1;
      if !(j >= wgap) {
        SiftUnfolds(cur, qj, gap, comp);
        break;
      }
    }
  }

  lemma SiftUnfolds<T>(s: seq<T>, j: nat, gap: nat, comp: (T, T) -> int)
    requires 0 < gap && j < |s|
    ensures j < gap || comp(s[j - gap], s[j]) <= 0 ==> Sift(s, j, gap, comp) == s && SiftMoves(s, j, gap, comp) == 0
    ensures j >= gap && comp(s[j - gap], s[j]) > 0 ==>
              var r := Swap(s, j - gap, j);
              Sift(s, j, gap, comp) == Sift(r, j - gap, gap, comp) && SiftMoves(s, j, gap, comp) == 1 + SiftMoves(r, j - gap, gap, comp)
  {
  }

  /** One pass over the elements from the one at byte offset `wgap` on; `wnel` is their size in bytes. */
  method GapPass(base: array<byte>, wnel: size_t, wgap: size_t, width: size_t, comp: Comparator,
                 ghost n: nat, ghost gap: nat) returns (ghost moves: nat)
    requires Fits(base.Length, n, width) && 0 < gap < n
    requires wnel as int == Offset(n, width as nat) && wgap as int == Offset(gap, width as nat)
    modifies base
    ensures Holds(old(base[..]), base[..], n, width as nat, Pass(Blocks(old(base[..]), n, width as nat), gap, n, comp))
    ensures moves == PassMoves(Blocks(old(base[..]), n, width as nat), gap, n, comp)
  {
    var i := wgap;
    ghost var w := width as nat;
    ghost var first := base[..];
    ghost var qi, start := gap, Blocks(first, n, w);
    moves := 0;
    while true
      invariant gap <= qi < n && i as int == Offset(qi, w)
      invariant Holds(first, base[..], n, w, Pass(start, gap, qi, comp))
      invariant moves == PassMoves(start, gap, qi, comp)
      decreases n - qi
    {
      ghost var before, cur := base[..], Pass(start, gap, qi, comp);
      ghost var more := SiftDown(base, i, wgap, width, comp, n, qi, gap);
      HoldsTrans(first, before, base[..], n, w, cur, Sift(cur, qi, gap, comp));
      OffsetOrder(qi, n, w);
      OffsetOrder(qi + 1, n, w);
      OffsetAdds(qi, 1, w);
      i := i + width;
      qi, moves := qi + 1, moves + more;
      if !(i < wnel) {
        assert qi == n;
        break;
      }
    }
    assert start == Blocks(old(base[..]), n, width as nat);
    assert Holds(first, base[..], n, w, Pass(start, gap, n, comp));
    assert moves == PassMoves(start, gap, n, comp);
  }

  /** The first gap, counted in elements. */
  method InitialGap(nel: size_t) returns (wgap: size_t)
    requires nel > 1
    ensures wgap as int == Gap(FirstGap(nel as nat, 1)) < nel as int
  {
    wgap := 0;
    ghost var n, m := nel as nat, 0;
    while true
      invariant wgap as int == Gap(m) && (m == 0 || Gap(m) < (n - 1) / 3)
      invariant FirstGap(n, m + 1) == FirstGap(n, 1)
      decreases n - Gap(m)
    {
      GapPositive(m + 1);
      wgap, m := 3 * wgap + 1, m + 1;
      if !(wgap < (nel - 1) / 3) {
        break;
      }
    }
    FirstGapInRange(n, 1);
  }

  /** The next byte gap is the next smaller gap, exactly. */
  lemma NextGap(m: nat, w: nat)
    requires 0 < m && 0 < w
    ensures Offset(Gap(m), w) - w == 3 * Offset(Gap(m - 1), w)
    ensures Offset(Gap(m), w) >= w
    ensures Offset(Gap(m - 1), w) == 0 <==> m == 1
  {
    var g := Gap(m - 1);
    OffsetAdds(g, g, w);
    OffsetAdds(2 * g, g, w);
    assert Gap(m) == 3 * g + 1;
    OffsetAdds(3 * g, 1, w);
    if m > 1 {
      GapPositive(m - 1);
      OffsetOrder(0, g, w);
    }
  }

  /** All passes from the byte gap `first` down to `width`; `moves` counts all
      swaps, `lastMoves` those of the last pass. */
  method AllPasses(base: array<byte>, wnel: size_t, first: size_t, width: size_t, comp: Comparator,
                   ghost n: nat, ghost top: nat) returns (ghost moves: nat, ghost lastMoves: nat)
    requires Fits(base.Length, n, width) && 0 < top && Gap(top) < n
    requires wnel as int == Offset(n, width as nat) && first as int == Offset(Gap(top), width as nat)
    modifies base
    ensures Holds(old(base[..]), base[..], n, width as nat, Passes(Blocks(old(base[..]), n, width as nat), top, 1, comp))
    ensures moves == AllMoves(Blocks(old(base[..]), n, width as nat), top, 1, comp)
    ensures lastMoves == PassMoves(Passes(Blocks(old(base[..]), n, width as nat), top, 2, comp), 1, n, comp)
  {
    var wgap := first;
    ghost var w := width as nat;
    ghost var begin := base[..];
    ghost var m, start := top, Blocks(begin, n, w);
    moves := 0;
    while true
      invariant 0 < m <= top && wgap as int == Offset(Gap(m), w)
      invariant moves == AllMoves(start, top, m + 1, comp)
      invariant Holds(begin, base[..], n, w, Passes(start, top, m + 1, comp))
      decreases m
    {
      ghost var before, cur := base[..], Passes(start, top, m + 1, comp);
      GapPositive(m);
      GapMonotone(m, top);
      lastMoves := GapPass(base, wnel, wgap, width, comp, n, Gap(m));
      moves := moves + lastMoves;
      HoldsTrans(begin, before, base[..], n, w, cur, Pass(cur, Gap(m), n, comp));
      NextGap(m, w);
      wgap := (wgap - width) / 3;
      if !(wgap != 0) {
        assert m == 1;
        break;
      }
      m := m - 1;
    }
  }

  /**
    Sorts `nel` elements of `width` bytes in place.  `done` is false if the overflow check
    fails, which aborts the program.
   */
  method UclibcQsort(base: array<byte>, nel: size_t, width: size_t, comp: Comparator)
    returns (done: bool, ghost moves: nat, ghost lastMoves: nat)
    requires nel as int * width as int <= SIZE_MAX as int ==> nel as int * width as int <= base.Length
    modifies base
    ensures done <==> nel as int * width as int <= SIZE_MAX as int
    ensures !done || nel <= 1 || width == 0 ==> base[..] == old(base[..])
    ensures done ==>
      var n, w := nel as nat, width as nat;
      var bs := Blocks(old(base[..]), n, w);
      && Holds(old(base[..]), base[..], n, w, if w > 0 then ShellSort(bs, comp) else bs)
      && multiset(Blocks(base[..], n, w)) == multiset(bs)
      && (w > 0 ==> forall d :: Within(bs, d) && OrderOn(comp, d) ==>
           && Sorted(Blocks(base[..], n, w), comp)
           && 2 * moves <= n * (57 * SquareRoot(n))
           && (n >= 16 ==> lastMoves <= 18 * n))
  {
    done, moves, lastMoves := true, 0, 0;
    ghost var n, w := nel as nat, width as nat;
    ghost var begin := base[..];
    ghost var bs := Blocks(begin, n, w);
    OffsetIsProduct(n, w);
    if nel > 1 && width > 0 {
      OverflowCheck(n, w, SIZE_MAX as nat);
      if !(nel <= SIZE_MAX / width) {
        return false, 0, 0;
      }
      var wgap := InitialGap(nel);
      ghost var top := FirstGap(n, 1);
      OffsetIsProduct(Gap(top), w);
      OffsetOrder(Gap(top), n, w);
      wgap := wgap * width;
      var wnel := nel * width;
      moves, lastMoves := AllPasses(base, wnel, wgap, width, comp, n, top);
      ShellSortPermutes(bs, comp);
    }
    if width > 0 {
      SortedInTheEnd(bs, comp, moves, lastMoves);
    }
  }

  lemma OverflowCheck(n: nat, w: nat, max: nat)
    requires w > 0
    ensures n <= max / w <==> n * w <= max
  {
    if n <= max / w {
      assert n * w <= (max / w) * w;
    } else {
      assert (max / w + 1) * w <= n * w;
    }
  }

  lemma SortedInTheEnd(bs: seq<seq<byte>>, comp: Comparator, moves: nat, lastMoves: nat)
    requires moves == ShellSortMoves(bs, comp)
    requires |bs| > 1 ==> lastMoves == PassMoves(Passes(bs, FirstGap(|bs|, 1), 2, comp), 1, |bs|, comp)
    ensures forall d :: Within(bs, d) && OrderOn(comp, d) ==>
      && Sorted(ShellSort(bs, comp), comp)
      && 2 * moves <= |bs| * (57 * SquareRoot(|bs|))
      && (|bs| >= 16 ==> lastMoves <= 18 * |bs|)
  {
    forall d | Within(bs, d) && OrderOn(comp, d)
      ensures Sorted(ShellSort(bs, comp), comp) && 2 * moves <= |bs| * (57 * SquareRoot(|bs|)) && (|bs| >= 16 ==> lastMoves <= 18 * |bs|)
    {
      ShellSortSorts(bs, comp, d);
      TotalBound(bs, comp, d);
      if |bs| >= 16 {
        FinalPassBound(bs, comp, d);
      }
    }
  }
}

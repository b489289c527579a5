/**
  How much the whole Shellsort moves: the bound of each pass, and their sum, which is at most
  28.5 n sqrt(n) swaps.
 */
module ShellsortTotal {
  import opened Shellsort
  import opened ShellsortTheorem
  import opened ShellsortMoves

  // ---------- every pass ----------

  /** The two passes before have left the sequence sorted at 3g + 1 and 9g + 4. */
  lemma LargerGapsSorted<T>(s: seq<T>, top: nat, m: nat, comp: (T, T) -> int, d: set<T>)
    requires 0 < m && m + 2 <= top && Within(s, d) && OrderOn(comp, d)
    ensures GapSorted(Passes(s, top, m + 1, comp), 3 * Gap(m) + 1, comp)
    ensures GapSorted(Passes(s, top, m + 1, comp), 9 * Gap(m) + 4, comp)
  {
    PassesSort(s, top, m + 1, m + 1, comp, d);
    PassesSort(s, top, m + 1, m + 2, comp, d);
    assert Gap(m + 1) == 3 * Gap(m) + 1 && Gap(m + 2) == 3 * Gap(m + 1) + 1;
  }

  /** The first two passes have few positions to pass. */
  lemma FirstGapsLarge(n: nat, m: nat)
    requires n > 1 && 0 < m && m <= FirstGap(n, 1) < m + 2
    ensures n <= 9 * Gap(m) + 6
  {
    FirstGapInRange(n, 1);
    assert Gap(m + 1) == 3 * Gap(m) + 1;
  }

  lemma SmallQuotient(x: nat, g: nat, n: nat)
    requires 0 < g && x * g < n <= 9 * g + 6
    ensures x <= 18 * g
  {
    if x > 15 {
      assert x * g >= 16 * g;
    }
  }

  /** In every pass of a sort of any length, each outer index makes at most 18g swaps. */
  lemma EveryIndexBound<T>(s: seq<T>, m: nat, i: nat, comp: (T, T) -> int, d: set<T>)
    requires i < |s| && |s| > 1 && 0 < m <= FirstGap(|s|, 1) && Within(s, d) && OrderOn(comp, d)
    ensures 0 < Gap(m)
    ensures SiftMoves(Pass(Passes(s, FirstGap(|s|, 1), m + 1, comp), Gap(m), i, comp), i, Gap(m), comp) <= 18 * Gap(m)
  {
    var top, g := FirstGap(|s|, 1), Gap(m);
    var before := Passes(s, top, m + 1, comp);
    GapPositive(m);
    if m + 2 <= top {
      LargerGapsSorted(s, top, m, comp, d);
      PassesPermute(s, top, m + 1, comp);
      PermutedWithin(s, before, d);
      FewMoves(before, i, g, comp, d);
    } else {
      var t := Pass(before, g, i, comp);
      FirstGapsLarge(|s|, m);
      MovesFit(t, i, g, comp);
      SmallQuotient(SiftMoves(t, i, g, comp), g, |s|);
    }
  }

  /** n / g, as a recursion. */
  function Quotient(n: nat, g: nat): nat
    requires 0 < g
  {
    if n < g then 0 else 1 + Quotient(n - g, g)
  }

  lemma {:induction false} QuotientTimes(n: nat, g: nat)
    requires 0 < g
    ensures Quotient(n, g) * g <= n < Quotient(n, g) * g + g
  {
    if n >= g {
      QuotientTimes(n - g, g);
      Times(Quotient(n, g), g);
    }
  }

  lemma Product(x: nat, y: nat, g: nat, h: nat)
    requires x <= y && g <= h
    ensures x * g <= y * h
  {
    assert x * g <= y * g <= y * h;
  }

  lemma QuotientBound(x: nat, g: nat, n: nat)
    requires 0 < g && x * g <= n
    ensures x <= Quotient(n, g)
  {
    QuotientTimes(n, g);
    var q := Quotient(n, g);
    Times(q + 1, g);
    if x > q {
      Product(q + 1, x, g, g);
    }
  }

  /** What is allowed to one outer index in pass `m`, for n elements and r about sqrt(n). */
  function Allowed(n: nat, r: nat, m: nat): nat
    requires 0 < Gap(m)
  {
    if Gap(m) <= r then 18 * Gap(m) else Quotient(n, Gap(m))
  }

  lemma EveryPassBound<T>(s: seq<T>, m: nat, r: nat, comp: (T, T) -> int, d: set<T>)
    requires |s| > 1 && 0 < m <= FirstGap(|s|, 1) && Within(s, d) && OrderOn(comp, d)
    ensures 0 < Gap(m)
    ensures PassMoves(Passes(s, FirstGap(|s|, 1), m + 1, comp), Gap(m), |s|, comp) <= |s| * Allowed(|s|, r, m)
  {
    GapPositive(m);
    var before, g := Passes(s, FirstGap(|s|, 1), m + 1, comp), Gap(m);
    forall i {:trigger Pass(before, g, i, comp)} | 0 <= i < |s|
      ensures SiftMoves(Pass(before, g, i, comp), i, g, comp) <= Allowed(|s|, r, m)
    {
      EveryIndexBound(s, m, i, comp, d);
      MovesFit(Pass(before, g, i, comp), i, g, comp);
      QuotientBound(SiftMoves(Pass(before, g, i, comp), i, g, comp), g, |s|);
    }
    PassAtMost(before, |s|, g, comp, Allowed(|s|, r, m));
  }

  // ---------- all passes ----------

  /** The swaps of the passes with gaps Gap(top), ..., Gap(m). */
  function AllMoves<T>(s: seq<T>, top: nat, m: nat, comp: (T, T) -> int): nat
    requires 0 < m
    decreases top + 1 - m
  {
    if m > top then 0
    else
      GapPositive(m);
      AllMoves(s, top, m + 1, comp) + PassMoves(Passes(s, top, m + 1, comp), Gap(m), |s|, comp)
  }

  function ShellSortMoves<T>(s: seq<T>, comp: (T, T) -> int): nat {
    if |s| > 1 then AllMoves(s, FirstGap(|s|, 1), 1, comp) else 0
  }

  function SumAllowed(n: nat, r: nat, top: nat, m: nat): nat
    requires 0 < m
    decreases top + 1 - m
  {
    if m > top then 0
    else
      GapPositive(m);
      Allowed(n, r, m) + SumAllowed(n, r, top, m + 1)
  }

  lemma Distribute(n: nat, x: nat, y: nat)
    ensures n * (x + y) == n * x + n * y
  {
  }

  lemma {:induction false} MovesSum<T>(s: seq<T>, m: nat, r: nat, comp: (T, T) -> int, d: set<T>)
    requires |s| > 1 && 0 < m && Within(s, d) && OrderOn(comp, d)
    ensures AllMoves(s, FirstGap(|s|, 1), m, comp) <= |s| * SumAllowed(|s|, r, FirstGap(|s|, 1), m)
    decreases FirstGap(|s|, 1) + 1 - m
  {
    var n, top := |s|, FirstGap(|s|, 1);
    if m <= top {
      MovesSum(s, m + 1, r, comp, d);
      EveryPassBound(s, m, r, comp, d);
      Distribute(n, Allowed(n, r, m), SumAllowed(n, r, top, m + 1));
    }
  }

  /** Gap(1) + ... + Gap(m). */
  function SumGaps(m: nat): nat {
    if m == 0 then 0 else SumGaps(m - 1) + Gap(m)
  }

  lemma {:induction false} SumGapsBound(m: nat)
    ensures 2 * SumGaps(m) <= 3 * Gap(m)
  {
    if m > 0 {
      SumGapsBound(m - 1);
    }
  }

  lemma ThirdQuotient(n: nat, g: nat, h: nat)
    requires 0 < g && h == 3 * g + 1
    ensures 3 * Quotient(n, h) <= Quotient(n, g)
  {
    var q := Quotient(n, h);
    QuotientTimes(n, h);
    ThirdTimes(q, g);
    QuotientBound(3 * q, g, n);
  }

  lemma ThirdTimes(q: nat, g: nat)
    ensures (3 * q) * g + q == q * (3 * g + 1)
  {
  }

  /** The passes with large gaps. */
  lemma {:induction false} LargeGaps(n: nat, r: nat, top: nat, m: nat)
    requires 0 < m && Gap(m) > r
    ensures 2 * SumAllowed(n, r, top, m) <= 3 * Quotient(n, Gap(m))
    decreases top + 1 - m
  {
    if m <= top {
      LargeGaps(n, r, top, m + 1);
      ThirdQuotient(n, Gap(m), Gap(m + 1));
    }
  }

  lemma RootQuotient(n: nat, r: nat, g: nat)
    requires n < (r + 1) * (r + 1) && g > r
    ensures Quotient(n, g) <= r
  {
    QuotientTimes(n, g);
    if Quotient(n, g) > r {
      Product(r + 1, Quotient(n, g), r + 1, g);
    }
  }

  /** All passes from `m` on, as far as the small gaps before `m` leave room. */
  lemma {:induction false} AllGaps(n: nat, r: nat, top: nat, m: nat)
    requires n < (r + 1) * (r + 1) && 0 < m && Gap(m - 1) <= r
    ensures 2 * SumAllowed(n, r, top, m) + 36 * SumGaps(m - 1) <= 57 * r
    decreases top + 1 - m
  {
    SumGapsBound(m - 1);
    if m <= top {
      GapPositive(m);
      if Gap(m) <= r {
        AllGaps(n, r, top, m + 1);
      } else {
        LargeGaps(n, r, top, m);
        RootQuotient(n, r, Gap(m));
      }
    }
  }

  // ---------- the swaps counted exactly ----------

  /** A sorted class has nothing greater above an element that is not below its neighbour. */
  lemma {:induction false} NothingAbove<T>(s: seq<T>, j: nat, gap: nat, v: T, comp: (T, T) -> int, d: set<T>)
    requires 0 < gap && j < |s| && Within(s, d) && v in d && OrderOn(comp, d)
    requires SortedBelow(s, gap, j, comp) && (j >= gap ==> LessEq(comp, s[j - gap], v))
    ensures Above(s, j, gap, v, comp) == 0
    decreases j
  {
    if j >= 2 * gap {
      assert LessEq(comp, s[j - 2 * gap], s[j - gap]);
    }
    if j >= gap {
      NothingAbove(s, j - gap, gap, v, comp, d);
    }
  }

  /** Sifting makes one swap for each greater element above. */
  lemma {:induction false} MovesExact<T>(s: seq<T>, j: nat, gap: nat, comp: (T, T) -> int, d: set<T>)
    requires 0 < gap && j < |s| && Within(s, d) && OrderOn(comp, d) && SortedBelow(s, gap, j, comp)
    ensures SiftMoves(s, j, gap, comp) == Above(s, j, gap, s[j], comp)
    decreases j
  {
    if j >= gap && comp(s[j - gap], s[j]) > 0 {
      var r := Swap(s, j - gap, j);
      MovesExact(r, j - gap, gap, comp, d);
      AboveLocal(s, r, j - gap, gap, s[j], comp);
    } else {
      NothingAbove(s, j, gap, s[j], comp, d);
    }
  }

  /** The pairs below index `i` that are a multiple of the gap apart and out of order. */
  function Inversions<T>(s: seq<T>, gap: nat, i: nat, comp: (T, T) -> int): nat
    requires 0 < gap && i <= |s|
  {
    if i == 0 then 0 else Inversions(s, gap, i - 1, comp) + Above(s, i - 1, gap, s[i - 1], comp)
  }

  /** A pass makes one swap for each such pair that it finds. */
  lemma {:induction false} PassMovesExact<T>(s: seq<T>, gap: nat, i: nat, comp: (T, T) -> int, d: set<T>)
    requires 0 < gap && i <= |s| && Within(s, d) && OrderOn(comp, d)
    ensures PassMoves(s, gap, i, comp) == Inversions(s, gap, i, comp)
  {
    if i > 0 {
      PassMovesExact(s, gap, i - 1, comp, d);
      if i > gap {
        var t := Pass(s, gap, i - 1, comp);
        PassSorts(s, gap, i - 1, comp, d);
        MovesExact(t, i - 1, gap, comp, d);
        PassLocal(s, gap, i - 1, comp);
        PassKeepsAbove(s, gap, i - 1, s[i - 1], comp);
      }
    }
  }

  /** The pairs out of order that the passes with gaps Gap(top), ..., Gap(m) find. */
  function AllInversions<T>(s: seq<T>, top: nat, m: nat, comp: (T, T) -> int): nat
    requires 0 < m
    decreases top + 1 - m
  {
    if m > top then 0
    else
      GapPositive(m);
      AllInversions(s, top, m + 1, comp) + Inversions(Passes(s, top, m + 1, comp), Gap(m), |s|, comp)
  }

  /** The sort makes exactly one swap for each pair that a pass finds out of order at its gap. */
  lemma {:induction false} AllMovesExact<T>(s: seq<T>, top: nat, m: nat, comp: (T, T) -> int, d: set<T>)
    requires 0 < m && Within(s, d) && OrderOn(comp, d)
    ensures AllMoves(s, top, m, comp) == AllInversions(s, top, m, comp)
    decreases top + 1 - m
  {
    if m <= top {
      GapPositive(m);
      AllMovesExact(s, top, m + 1, comp, d);
      PassesPermute(s, top, m + 1, comp);
      PermutedWithin(s, Passes(s, top, m + 1, comp), d);
      PassMovesExact(Passes(s, top, m + 1, comp), Gap(m), |s|, comp, d);
    }
  }

  // ---------- the bound ----------

  /** The square root of `n`, rounded down. */
  function SquareRoot(n: nat): (r: nat)
    ensures r * r <= n < (r + 1) * (r + 1)
  {
    if n == 0 then 0
    else
      var r := SquareRoot(n - 1);
      if (r + 1) * (r + 1) <= n then r + 1 else r
  }

  /** For a total preorder the whole sort makes at most 28.5 n sqrt(n) swaps. */
  lemma TotalBound<T>(s: seq<T>, comp: (T, T) -> int, d: set<T>)
    requires Within(s, d) && OrderOn(comp, d)
    ensures 2 * ShellSortMoves(s, comp) <= |s| * (57 * SquareRoot(|s|))
  {
    if |s| > 1 {
      var r, top := SquareRoot(|s|), FirstGap(|s|, 1);
      MovesSum(s, 1, r, comp, d);
      AllGaps(|s|, r, top, 1);
      Halved(ShellSortMoves(s, comp), |s|, SumAllowed(|s|, r, top, 1), 57 * r);
    }
  }

  lemma Halved(x: nat, n: nat, y: nat, z: nat)
    requires x <= n * y && 2 * y <= z
    ensures 2 * x <= n * z
  {
    Product(n, n, 2 * y, z);
    assert n * (2 * y) == 2 * (n * y);
  }
}

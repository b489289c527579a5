/**
  The Shellsort of `uclibc_qsort` (c/cl_qsort.c) on a sequence of whole elements: what each
  loop nest computes, and the order it establishes.  The comparator is any function; only
  whether its result is positive matters.
 */
module Shellsort {

  // ---------- what the loops compute ----------

  function Swap<T>(s: seq<T>, i: nat, j: nat): (r: seq<T>)
    requires i < |s| && j < |s|
    ensures |r| == |s|
  {
    s[i := s[j]][j := s[i]]
  }

  /** The innermost compare-and-swap loop, from element `j` downwards. */
  function Sift<T>(s: seq<T>, j: nat, gap: nat, comp: (T, T) -> int): (r: seq<T>)
    requires 0 < gap && j < |s|
    ensures |r| == |s|
    decreases j
  {
    if j < gap || comp(s[j - gap], s[j]) <= 0 then s
    else Sift(Swap(s, j - gap, j), j - gap, gap, comp)
  }

  function SiftMoves<T>(s: seq<T>, j: nat, gap: nat, comp: (T, T) -> int): nat
    requires 0 < gap && j < |s|
    decreases j
  {
    if j < gap || comp(s[j - gap], s[j]) <= 0 then 0
    else 1 + SiftMoves(Swap(s, j - gap, j), j - gap, gap, comp)
  }

  /** One gap pass, after its outer indices below `i`. */
  function Pass<T>(s: seq<T>, gap: nat, i: nat, comp: (T, T) -> int): (r: seq<T>)
    requires 0 < gap && i <= |s|
    ensures |r| == |s|
    decreases i
  {
    if i <= gap then s
    else Sift(Pass(s, gap, i - 1, comp), i - 1, gap, comp)
  }

  function PassMoves<T>(s: seq<T>, gap: nat, i: nat, comp: (T, T) -> int): nat
    requires 0 < gap && i <= |s|
    decreases i
  {
    if i <= gap then 0
    else PassMoves(s, gap, i - 1, comp) + SiftMoves(Pass(s, gap, i - 1, comp), i - 1, gap, comp)
  }

  /** The gaps 1, 4, 13, 40, ...; gap 0 ends the sort. */
  function Gap(m: nat): nat {
    if m == 0 then 0 else 3 * Gap(m - 1) + 1
  }

  /** The array after the passes with gaps Gap(top), ..., Gap(m). */
  function Passes<T>(s: seq<T>, top: nat, m: nat, comp: (T, T) -> int): (r: seq<T>)
    requires 0 < m
    ensures |r| == |s|
    decreases top + 1 - m
  {
    if m > top then s
    else
      GapPositive(m);
      Pass(Passes(s, top, m + 1, comp), Gap(m), |s|, comp)
  }

  /** The number of the first gap: the loop that computes it stops at the first gap that
      is not below (n - 1) / 3. */
  function FirstGap(n: nat, m: nat): (top: nat)
    requires n > 1 && m > 0
    ensures top >= m
    decreases n - Gap(m)
  {
    GapPositive(m);
    if Gap(m) < (n - 1) / 3 then FirstGap(n, m + 1) else m
  }

  function ShellSort<T>(s: seq<T>, comp: (T, T) -> int): (r: seq<T>)
    ensures |r| == |s|
  {
    if |s| > 1 then Passes(s, FirstGap(|s|, 1), 1, comp) else s
  }

  // ---------- the gaps ----------

  lemma {:induction false} GapPositive(m: nat)
    requires m > 0
    ensures Gap(m) > Gap(m - 1) && Gap(m) > 0 && (Gap(m) - 1) / 3 == Gap(m - 1) && (Gap(m) - 1) % 3 == 0
  {
  }

  function Power3(m: nat): nat {
    if m == 0 then 1 else 3 * Power3(m - 1)
  }

  /** Gap(m) is (3^m - 1) / 2. */
  lemma {:induction false} GapClosedForm(m: nat)
    ensures 2 * Gap(m) == Power3(m) - 1
  {
    if m > 0 {
      GapClosedForm(m - 1);
    }
  }

  /** The first gap is below the number of elements, so every pass has work to start with. */
  lemma {:induction false} FirstGapInRange(n: nat, m: nat)
    requires n > 1 && m > 0 && Gap(m) < n
    ensures Gap(FirstGap(n, m)) < n && Gap(FirstGap(n, m)) >= (n - 1) / 3
    decreases n - Gap(m)
  {
    if Gap(m) < (n - 1) / 3 {
      assert Gap(m + 1) == 3 * Gap(m) + 1 < n;
      FirstGapInRange(n, m + 1);
    }
  }

  /** The first gap is the least one that is not below a third. */
  lemma {:induction false} FirstGapLeast(n: nat, m: nat)
    requires n > 1 && m > 0 && (m > 1 ==> Gap(m - 1) < (n - 1) / 3)
    ensures FirstGap(n, m) > 1 ==> Gap(FirstGap(n, m) - 1) < (n - 1) / 3
    ensures Gap(FirstGap(n, m)) >= (n - 1) / 3
    decreases n - Gap(m)
  {
    if Gap(m) < (n - 1) / 3 {
      GapPositive(m);
      FirstGapLeast(n, m + 1);
    }
  }

  lemma {:induction false} GapMonotone(m: nat, k: nat)
    requires m <= k
    ensures Gap(m) <= Gap(k)
    decreases k - m
  {
    if m < k {
      GapMonotone(m, k - 1);
    }
  }

  // ---------- permutation ----------

  lemma SwapPermutes<T>(s: seq<T>, i: nat, j: nat)
    requires i < |s| && j < |s|
    ensures multiset(Swap(s, i, j)) == multiset(s)
  {
  }

  lemma {:induction false} SiftPermutes<T>(s: seq<T>, j: nat, gap: nat, comp: (T, T) -> int)
    requires 0 < gap && j < |s|
    ensures multiset(Sift(s, j, gap, comp)) == multiset(s)
    decreases j
  {
    if j >= gap && comp(s[j - gap], s[j]) > 0 {
      SwapPermutes(s, j - gap, j);
      SiftPermutes(Swap(s, j - gap, j), j - gap, gap, comp);
    }
  }

  lemma {:induction false} PassPermutes<T>(s: seq<T>, gap: nat, i: nat, comp: (T, T) -> int)
    requires 0 < gap && i <= |s|
    ensures multiset(Pass(s, gap, i, comp)) == multiset(s)
    decreases i
  {
    if i > gap {
      PassPermutes(s, gap, i - 1, comp);
      SiftPermutes(Pass(s, gap, i - 1, comp), i - 1, gap, comp);
    }
  }

  lemma {:induction false} PassesPermute<T>(s: seq<T>, top: nat, m: nat, comp: (T, T) -> int)
    requires 0 < m
    ensures multiset(Passes(s, top, m, comp)) == multiset(s)
    decreases top + 1 - m
  {
    if m <= top {
      GapPositive(m);
      PassesPermute(s, top, m + 1, comp);
      PassPermutes(Passes(s, top, m + 1, comp), Gap(m), |s|, comp);
    }
  }

  /** Whatever the comparator answers, the result is a permutation of the input. */
  lemma ShellSortPermutes<T>(s: seq<T>, comp: (T, T) -> int)
    ensures multiset(ShellSort(s, comp)) == multiset(s)
  {
    if |s| > 1 {
      PassesPermute(s, FirstGap(|s|, 1), 1, comp);
    }
  }

  // ---------- order ----------

  ghost predicate LessEq<T>(comp: (T, T) -> int, x: T, y: T) {
    comp(x, y) <= 0
  }

  /** `comp` is a total preorder on the values of `d`. */
  ghost predicate OrderOn<T>(comp: (T, T) -> int, d: set<T>) {
    && (forall x, y :: x in d && y in d ==> LessEq(comp, x, y) || LessEq(comp, y, x))
    && (forall x, y, z :: x in d && y in d && z in d && LessEq(comp, x, y) && LessEq(comp, y, z) ==> LessEq(comp, x, z))
  }

  /** All values of `s` are in `d`. */
  ghost predicate Within<T>(s: seq<T>, d: set<T>) {
    forall i :: 0 <= i < |s| ==> s[i] in d
  }

  ghost predicate GapSorted<T>(s: seq<T>, gap: nat, comp: (T, T) -> int) {
    SortedBelow(s, gap, |s|, comp)
  }

  /** Elements `gap` apart are in order among the first `n`. */
  ghost predicate SortedBelow<T>(s: seq<T>, gap: nat, n: nat, comp: (T, T) -> int) {
    forall i, j :: 0 <= i < j < n && j < |s| && j == i + gap ==> LessEq(comp, s[i], s[j])
  }

  ghost predicate Sorted<T>(s: seq<T>, comp: (T, T) -> int) {
    forall i, j :: 0 <= i < j < |s| ==> LessEq(comp, s[i], s[j])
  }

  lemma PermutedWithin<T>(s: seq<T>, r: seq<T>, d: set<T>)
    requires multiset(s) == multiset(r) && Within(s, d)
    ensures Within(r, d)
  {
    forall i | 0 <= i < |r| ensures r[i] in d {
      assert r[i] in multiset(r);
    }
  }

  /** All gaps are in order up to `i`, except that the element at `j` may be too small. */
  ghost predicate AllBut<T>(s: seq<T>, j: nat, i: nat, gap: nat, comp: (T, T) -> int) {
    && (forall x, y :: 0 <= x < y <= i && y < |s| && y == x + gap && y != j ==> LessEq(comp, s[x], s[y]))
    && (forall x, y :: 0 <= x < y <= i && y < |s| && x + gap == j && y == j + gap ==> LessEq(comp, s[x], s[y]))
  }

  lemma {:induction false} SiftSorts<T>(s: seq<T>, j: nat, i: nat, gap: nat, comp: (T, T) -> int, d: set<T>)
    requires 0 < gap && j <= i < |s| && Within(s, d) && OrderOn(comp, d)
    requires AllBut(s, j, i, gap, comp)
    ensures SortedBelow(Sift(s, j, gap, comp), gap, i + 1, comp)
    decreases j
  {
    if j >= gap && comp(s[j - gap], s[j]) > 0 {
      var r := Swap(s, j - gap, j);
      assert LessEq(comp, s[j], s[j - gap]);
      SiftSorts(r, j - gap, i, gap, comp, d);
    }
  }

  lemma AllButLast<T>(s: seq<T>, i: nat, gap: nat, comp: (T, T) -> int)
    requires 0 < gap && i < |s| && SortedBelow(s, gap, i, comp)
    ensures AllBut(s, i, i, gap, comp)
  {
  }

  lemma {:induction false} PassSorts<T>(s: seq<T>, gap: nat, i: nat, comp: (T, T) -> int, d: set<T>)
    requires 0 < gap && i <= |s| && Within(s, d) && OrderOn(comp, d)
    ensures SortedBelow(Pass(s, gap, i, comp), gap, i, comp) && Within(Pass(s, gap, i, comp), d)
    decreases i
  {
    if i > gap {
      PassSorts(s, gap, i - 1, comp, d);
      SiftExtends(Pass(s, gap, i - 1, comp), i - 1, gap, comp, d);
    }
  }

  lemma SiftExtends<T>(t: seq<T>, i: nat, gap: nat, comp: (T, T) -> int, d: set<T>)
    requires 0 < gap && i < |t| && Within(t, d) && OrderOn(comp, d) && SortedBelow(t, gap, i, comp)
    ensures SortedBelow(Sift(t, i, gap, comp), gap, i + 1, comp) && Within(Sift(t, i, gap, comp), d)
  {
    AllButLast(t, i, gap, comp);
    SiftSorts(t, i, i, gap, comp, d);
    SiftPermutes(t, i, gap, comp);
    PermutedWithin(t, Sift(t, i, gap, comp), d);
  }
}

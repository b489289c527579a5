/**
  The classical theorem about Shellsort (Knuth, TAOCP volume 3, section 5.2.1, Theorem K):
  a pass with one gap leaves the array sorted at every gap it was sorted at before.
  The proof counts, for every threshold v, the elements that are at most v in each class
  of positions that are `gap` apart.
 */
module ShellsortTheorem {
  import opened Shellsort

  // ---------- positions that are gap apart ----------

  /** The first position of the class of `i`. */
  function Root(i: nat, gap: nat): (r: nat)
    requires 0 < gap
    ensures r < gap && r <= i
  {
    if i < gap then i else Root(i - gap, gap)
  }

  /** How many positions of the class of `i` there are up to `i`. */
  function Depth(i: nat, gap: nat): (n: nat)
    requires 0 < gap
    ensures n > 0
  {
    if i < gap then 1 else 1 + Depth(i - gap, gap)
  }

  lemma {:induction false} Shifted(i: nat, k: nat, gap: nat)
    requires 0 < gap
    ensures Root(Root(i, gap) + k, gap) == Root(i + k, gap)
    ensures Depth(Root(i, gap) + k, gap) + Depth(i, gap) == Depth(i + k, gap) + 1
  {
    if i >= gap {
      Shifted(i - gap, k, gap);
    }
  }

  // ---------- counting below a threshold ----------

  function One<T>(comp: (T, T) -> int, x: T, v: T): nat {
    if comp(x, v) <= 0 then 1 else 0
  }

  /** Elements at most `v` in the class of `i`, from `i` upwards. */
  function Up<T>(s: seq<T>, i: nat, gap: nat, v: T, comp: (T, T) -> int): nat
    requires 0 < gap
    decreases if i < |s| then |s| - i else 0
  {
    if i >= |s| then 0 else One(comp, s[i], v) + Up(s, i + gap, gap, v, comp)
  }

  /** Elements at most `v` in the class of `i`, up to `i`. */
  function Down<T>(s: seq<T>, i: nat, gap: nat, v: T, comp: (T, T) -> int): (n: nat)
    requires 0 < gap && i < |s|
    ensures n <= Depth(i, gap)
  {
    One(comp, s[i], v) + (if i < gap then 0 else Down(s, i - gap, gap, v, comp))
  }

  /** Elements at most `v` in the whole class of `i`. */
  function ClassCount<T>(s: seq<T>, i: nat, gap: nat, v: T, comp: (T, T) -> int): nat
    requires 0 < gap
  {
    Up(s, Root(i, gap), gap, v, comp)
  }

  lemma {:induction false} CountSplits<T>(s: seq<T>, i: nat, gap: nat, v: T, comp: (T, T) -> int)
    requires 0 < gap && i < |s|
    ensures ClassCount(s, i, gap, v, comp) == Down(s, i, gap, v, comp) + Up(s, i + gap, gap, v, comp)
  {
    if i >= gap {
      CountSplits(s, i - gap, gap, v, comp);
    }
  }

  // ---------- a pass does not change the counts ----------

  lemma {:induction false} SwapKeepsUp<T>(s: seq<T>, j: nat, i: nat, gap: nat, v: T, comp: (T, T) -> int)
    requires 0 < gap <= j < |s| && i != j
    ensures Up(Swap(s, j - gap, j), i, gap, v, comp) == Up(s, i, gap, v, comp)
    decreases if i < |s| then |s| - i else 0
  {
    if i == j - gap {
      var r := Swap(s, j - gap, j);
      SwapKeepsUp(s, j, j + gap, gap, v, comp);
      assert Up(r, j, gap, v, comp) == One(comp, r[j], v) + Up(r, j + gap, gap, v, comp);
      assert Up(s, j, gap, v, comp) == One(comp, s[j], v) + Up(s, j + gap, gap, v, comp);
    } else if i < |s| {
      SwapKeepsUp(s, j, i + gap, gap, v, comp);
    }
  }

  lemma {:induction false} SiftKeepsCounts<T>(s: seq<T>, j: nat, i: nat, gap: nat, v: T, comp: (T, T) -> int)
    requires 0 < gap && j < |s|
    ensures ClassCount(Sift(s, j, gap, comp), i, gap, v, comp) == ClassCount(s, i, gap, v, comp)
    decreases j
  {
    if j >= gap && comp(s[j - gap], s[j]) > 0 {
      SwapKeepsUp(s, j, Root(i, gap), gap, v, comp);
      SiftKeepsCounts(Swap(s, j - gap, j), j - gap, i, gap, v, comp);
    }
  }

  lemma {:induction false} PassKeepsCounts<T>(s: seq<T>, n: nat, i: nat, gap: nat, v: T, comp: (T, T) -> int)
    requires 0 < gap && n <= |s|
    ensures ClassCount(Pass(s, gap, n, comp), i, gap, v, comp) == ClassCount(s, i, gap, v, comp)
    decreases n
  {
    if n > gap {
      PassKeepsCounts(s, n - 1, i, gap, v, comp);
      SiftKeepsCounts(Pass(s, gap, n - 1, comp), n - 1, i, gap, v, comp);
    }
  }

  // ---------- counts of sorted classes ----------

  lemma {:induction false} SmallBelow<T>(s: seq<T>, i: nat, gap: nat, v: T, comp: (T, T) -> int, d: set<T>)
    requires 0 < gap && i < |s| && Within(s, d) && v in d && OrderOn(comp, d)
    requires GapSorted(s, gap, comp) && LessEq(comp, s[i], v)
    ensures Down(s, i, gap, v, comp) == Depth(i, gap)
  {
    if i >= gap {
      assert LessEq(comp, s[i - gap], s[i]);
      SmallBelow(s, i - gap, gap, v, comp, d);
    }
  }

  lemma {:induction false} LargeAbove<T>(s: seq<T>, i: nat, gap: nat, v: T, comp: (T, T) -> int, d: set<T>)
    requires 0 < gap && i < |s| && Within(s, d) && v in d && OrderOn(comp, d)
    requires GapSorted(s, gap, comp) && !LessEq(comp, s[i], v)
    ensures Up(s, i, gap, v, comp) == 0
    decreases |s| - i
  {
    if i + gap < |s| {
      assert LessEq(comp, s[i], s[i + gap]);
      LargeAbove(s, i + gap, gap, v, comp, d);
    }
  }

  /** In a sorted class the first ClassCount positions, and no others, hold elements at most `v`. */
  lemma SortedClass<T>(s: seq<T>, i: nat, gap: nat, v: T, comp: (T, T) -> int, d: set<T>)
    requires 0 < gap && i < |s| && Within(s, d) && v in d && OrderOn(comp, d) && GapSorted(s, gap, comp)
    ensures LessEq(comp, s[i], v) <==> ClassCount(s, i, gap, v, comp) >= Depth(i, gap)
  {
    CountSplits(s, i, gap, v, comp);
    if LessEq(comp, s[i], v) {
      SmallBelow(s, i, gap, v, comp, d);
    } else {
      LargeAbove(s, i, gap, v, comp, d);
    }
  }

  /** If `s` is sorted at gap `k`, every small element `k` above pairs off with a small one. */
  lemma {:induction false} ShiftUp<T>(s: seq<T>, i: nat, k: nat, gap: nat, v: T, comp: (T, T) -> int, d: set<T>)
    requires 0 < gap && 0 < k && Within(s, d) && v in d && OrderOn(comp, d) && GapSorted(s, k, comp)
    ensures Up(s, i + k, gap, v, comp) <= Up(s, i, gap, v, comp)
    decreases if i < |s| then |s| - i else 0
  {
    if i + k < |s| {
      assert LessEq(comp, s[i], s[i + k]);
      ShiftUp(s, i + gap, k, gap, v, comp, d);
    }
  }

  lemma ShiftCounts<T>(s: seq<T>, i: nat, k: nat, gap: nat, v: T, comp: (T, T) -> int, d: set<T>)
    requires 0 < gap && 0 < k && Within(s, d) && v in d && OrderOn(comp, d) && GapSorted(s, k, comp)
    requires i + k < |s|
    ensures ClassCount(s, i + k, gap, v, comp) + Depth(i, gap) <= ClassCount(s, i, gap, v, comp) + Depth(i + k, gap)
  {
    var x := Root(i, gap);
    Shifted(i, k, gap);
    DownBound(s, x + k, gap, v, comp);
    ShiftUp(s, x, k, gap, v, comp, d);
  }

  lemma DownBound<T>(s: seq<T>, j: nat, gap: nat, v: T, comp: (T, T) -> int)
    requires 0 < gap && j < |s|
    ensures ClassCount(s, j, gap, v, comp) <= Depth(j, gap) - 1 + Up(s, j, gap, v, comp)
  {
    CountSplits(s, j, gap, v, comp);
    if j >= gap {
      assert Down(s, j - gap, gap, v, comp) <= Depth(j - gap, gap);
    }
  }

  // ---------- the theorem ----------

  /** A pass sorts at its own gap and keeps the array sorted at every gap `k`. */
  lemma PassKeepsOrder<T>(s: seq<T>, gap: nat, k: nat, comp: (T, T) -> int, d: set<T>)
    requires 0 < gap && 0 < k && Within(s, d) && OrderOn(comp, d) && GapSorted(s, k, comp)
    ensures GapSorted(Pass(s, gap, |s|, comp), gap, comp)
    ensures GapSorted(Pass(s, gap, |s|, comp), k, comp)
  {
    PassSorts(s, gap, |s|, comp, d);
    var r := Pass(s, gap, |s|, comp);
    forall i, j | 0 <= i < j < |r| && j == i + k ensures LessEq(comp, r[i], r[j]) {
      var v := r[j];
      assert LessEq(comp, v, v);
      SortedClass(r, j, gap, v, comp, d);
      PassKeepsCounts(s, |s|, j, gap, v, comp);
      ShiftCounts(s, i, k, gap, v, comp, d);
      PassKeepsCounts(s, |s|, i, gap, v, comp);
      SortedClass(r, i, gap, v, comp, d);
    }
  }

  /** After the pass with gap number `m`, the array is sorted at all the gaps done so far. */
  lemma {:induction false} PassesSort<T>(s: seq<T>, top: nat, m: nat, h: nat, comp: (T, T) -> int, d: set<T>)
    requires 0 < m <= h <= top && Within(s, d) && OrderOn(comp, d)
    ensures GapSorted(Passes(s, top, m, comp), Gap(h), comp)
    decreases top - m
  {
    var before := Passes(s, top, m + 1, comp);
    GapPositive(m);
    GapPositive(h);
    PassesPermute(s, top, m + 1, comp);
    PermutedWithin(s, before, d);
    if m < h {
      PassesSort(s, top, m + 1, h, comp, d);
      PassKeepsOrder(before, Gap(m), Gap(h), comp, d);
    } else {
      PassSorts(before, Gap(m), |s|, comp, d);
    }
  }

  lemma {:induction false} SortedAtOne<T>(s: seq<T>, i: nat, j: nat, comp: (T, T) -> int, d: set<T>)
    requires i < j < |s| && Within(s, d) && OrderOn(comp, d) && GapSorted(s, 1, comp)
    ensures LessEq(comp, s[i], s[j])
    decreases j - i
  {
    assert LessEq(comp, s[j - 1], s[j]);
    if i < j - 1 {
      SortedAtOne(s, i, j - 1, comp, d);
    }
  }

  /** For a total preorder the result is sorted. */
  lemma ShellSortSorts<T>(s: seq<T>, comp: (T, T) -> int, d: set<T>)
    requires Within(s, d) && OrderOn(comp, d)
    ensures Sorted(ShellSort(s, comp), comp)
  {
    var r := ShellSort(s, comp);
    if |s| > 1 {
      ShellSortPermutes(s, comp);
      PermutedWithin(s, r, d);
      PassesSort(s, FirstGap(|s|, 1), 1, 1, comp, d);
      assert Gap(1) == 1;
      forall i, j | 0 <= i < j < |r| ensures LessEq(comp, r[i], r[j]) {
        SortedAtOne(r, i, j, comp, d);
      }
    }
  }
}

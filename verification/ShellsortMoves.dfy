/**
  How much the Shellsort moves.  The pass at gap g finds the sequence sorted at the two larger
  gaps 3g + 1 and 9g + 4, so an element is swapped at most once for each distance kg that is
  not a sum of these: 18g times.  With the n / g positions there are, this bounds every pass
  and, over all passes, gives the classical n sqrt(n).
 */
module ShellsortMoves {
  import opened Shellsort
  import opened ShellsortTheorem

  // ---------- moves of one element ----------

  /** Elements greater than `v` in the class of `i`, below `i`. */
  function Above<T>(s: seq<T>, i: nat, gap: nat, v: T, comp: (T, T) -> int): nat
    requires 0 < gap && i <= |s|
  {
    if i < gap then 0
    else (if comp(s[i - gap], v) > 0 then 1 else 0) + Above(s, i - gap, gap, v, comp)
  }

  lemma {:induction false} AboveLocal<T>(s: seq<T>, r: seq<T>, i: nat, gap: nat, v: T, comp: (T, T) -> int)
    requires 0 < gap && i <= |s| == |r| && forall k {:trigger r[k]} :: 0 <= k < i ==> r[k] == s[k]
    ensures Above(r, i, gap, v, comp) == Above(s, i, gap, v, comp)
  {
    if i >= gap {
      AboveLocal(s, r, i - gap, gap, v, comp);
    }
  }

  /** Each swap passes one greater element. */
  lemma {:induction false} MovesBounded<T>(s: seq<T>, j: nat, gap: nat, comp: (T, T) -> int)
    requires 0 < gap && j < |s|
    ensures SiftMoves(s, j, gap, comp) <= Above(s, j, gap, s[j], comp)
    decreases j
  {
    if j >= gap && comp(s[j - gap], s[j]) > 0 {
      var r := Swap(s, j - gap, j);
      MovesBounded(r, j - gap, gap, comp);
      AboveLocal(s, r, j - gap, gap, s[j], comp);
    }
  }

  /** Whatever the comparator says, there are only so many positions to pass. */
  lemma {:induction false} MovesFit<T>(s: seq<T>, j: nat, gap: nat, comp: (T, T) -> int)
    requires 0 < gap && j < |s|
    ensures SiftMoves(s, j, gap, comp) * gap <= j
    decreases j
  {
    if j >= gap && comp(s[j - gap], s[j]) > 0 {
      MovesFit(Swap(s, j - gap, j), j - gap, gap, comp);
    }
  }

  // ---------- a pass does not change what lies above ----------

  lemma {:induction false} SiftLocal<T>(s: seq<T>, j: nat, gap: nat, comp: (T, T) -> int)
    requires 0 < gap && j < |s|
    ensures forall k {:trigger Sift(s, j, gap, comp)[k]} :: j < k < |s| ==> Sift(s, j, gap, comp)[k] == s[k]
    decreases j
  {
    if j >= gap && comp(s[j - gap], s[j]) > 0 {
      SiftLocal(Swap(s, j - gap, j), j - gap, gap, comp);
    }
  }

  /** Up to outer index `i` a pass has changed nothing from `i` on. */
  lemma {:induction false} PassLocal<T>(s: seq<T>, gap: nat, i: nat, comp: (T, T) -> int)
    requires 0 < gap && i <= |s|
    ensures forall k {:trigger Pass(s, gap, i, comp)[k]} :: i <= k < |s| ==> Pass(s, gap, i, comp)[k] == s[k]
    decreases i
  {
    if i > gap {
      var t := Pass(s, gap, i - 1, comp);
      PassLocal(s, gap, i - 1, comp);
      SiftLocal(t, i - 1, gap, comp);
      forall k | i <= k < |s| ensures Pass(s, gap, i, comp)[k] == s[k] {
        assert Sift(t, i - 1, gap, comp)[k] == t[k];
      }
    }
  }

  lemma {:induction false} UpLocal<T>(s: seq<T>, r: seq<T>, i: nat, gap: nat, v: T, comp: (T, T) -> int)
    requires 0 < gap && |s| == |r| && forall k {:trigger r[k]} :: i <= k < |s| ==> r[k] == s[k]
    ensures Up(r, i, gap, v, comp) == Up(s, i, gap, v, comp)
    decreases if i < |s| then |s| - i else 0
  {
    if i < |s| {
      UpLocal(s, r, i + gap, gap, v, comp);
    }
  }

  lemma {:induction false} AboveIsRest<T>(s: seq<T>, i: nat, gap: nat, v: T, comp: (T, T) -> int)
    requires 0 < gap <= i <= |s|
    ensures Above(s, i, gap, v, comp) + Down(s, i - gap, gap, v, comp) == Depth(i - gap, gap)
  {
    if i >= 2 * gap {
      AboveIsRest(s, i - gap, gap, v, comp);
    }
  }

  lemma PassKeepsAbove<T>(s: seq<T>, gap: nat, i: nat, v: T, comp: (T, T) -> int)
    requires 0 < gap && i < |s|
    ensures Above(Pass(s, gap, i, comp), i, gap, v, comp) == Above(s, i, gap, v, comp)
  {
    if i >= gap {
      var t := Pass(s, gap, i, comp);
      AboveIsRest(s, i, gap, v, comp);
      AboveIsRest(t, i, gap, v, comp);
      CountSplits(s, i - gap, gap, v, comp);
      CountSplits(t, i - gap, gap, v, comp);
      PassKeepsCounts(s, i, i - gap, gap, v, comp);
      PassLocal(s, gap, i, comp);
      UpLocal(s, t, i, gap, v, comp);
    }
  }

  // ---------- distances that are sums of the two larger gaps ----------

  /** A test for k = 3q + r: the distance kg is a sum of gaps 3g + 1 and 9g + 4. */
  predicate CoveredIn(g: nat, q: nat, r: nat) {
    if r == 0 then q == 0 || q == 3 * g + 1 || 5 * g + 2 <= q <= 6 * g + 2 || 7 * g + 3 <= q
    else if r == 1 then q == g || 3 * g + 1 <= q <= 4 * g + 1 || 6 * g + 2 <= q <= 7 * g + 2 || 8 * g + 3 <= q
    else q == 2 * g || 4 * g + 1 <= q <= 5 * g + 1 || 6 * g + 2 <= q <= 8 * g + 2 || 9 * g + 3 <= q
  }

  predicate Covered(g: nat, k: nat) {
    CoveredIn(g, k / 3, k % 3)
  }

  /** `t` gaps of 3g + 1 for each of g positions, `b` times four of them exchanged for one of 9g + 4. */
  lemma Exchange(g: nat, t: nat, b: nat)
    requires 4 * b <= t * g
    ensures (t * g - 4 * b) * (3 * g + 1) + b * (9 * g + 4) == (t * (3 * g + 1) - 3 * b) * g
  {
  }

  /** For small q: how many gaps and exchanges, with t = 3u + r. */
  lemma Window(g: nat, q: nat, r: nat) returns (u: nat, b: nat)
    requires 0 < g && r < 3 && CoveredIn(g, q, r) && q <= 12 * g + r * g + 4
    ensures q + b == 3 * u * g + r * g + u && 4 * b <= 3 * u * g + r * g
  {
    if r == 0 {
      u := if q == 0 then 0 else if q == 3 * g + 1 then 1 else if q <= 6 * g + 2 then 2 else if q <= 9 * g + 3 then 3 else 4;
    } else if r == 1 {
      u := if q == g then 0 else if q <= 4 * g + 1 then 1 else if q <= 7 * g + 2 then 2 else if q <= 10 * g + 3 then 3 else 4;
    } else {
      u := if q == 2 * g then 0 else if q <= 5 * g + 1 then 1 else if q <= 8 * g + 2 then 2 else if q <= 11 * g + 3 then 3 else 4;
    }
    b := 3 * u * g + r * g + u - q;
  }

  lemma WindowSplits(g: nat, q: nat, r: nat) returns (a: nat, b: nat)
    requires 0 < g && r < 3 && CoveredIn(g, q, r) && q <= 12 * g + r * g + 4
    ensures a * (3 * g + 1) + b * (9 * g + 4) == (3 * q + r) * g
  {
    var u;
    u, b := Window(g, q, r);
    a := Exchanged(g, q, r, u, b);
  }

  lemma Exchanged(g: nat, q: nat, r: nat, u: nat, b: nat) returns (a: nat)
    requires q + b == 3 * u * g + r * g + u && 4 * b <= 3 * u * g + r * g
    ensures a * (3 * g + 1) + b * (9 * g + 4) == (3 * q + r) * g
  {
    var t := 3 * u + r;
    assert t * g == 3 * u * g + r * g;
    Exchange(g, t, b);
    assert t * (3 * g + 1) - 3 * b == 3 * q + r by {
      assert t * (3 * g + 1) == 3 * (t * g) + t;
    }
    a := t * g - 4 * b;
  }

  lemma CoveredBefore(g: nat, q: nat, r: nat)
    requires 0 < g && r < 3 && q > 12 * g + r * g + 4
    ensures CoveredIn(g, q - (3 * g + 1), r)
  {
  }

  /** 3g more gaps of 3g + 1. */
  lemma Longer(g: nat, a: nat, k: nat)
    ensures (a + 3 * g) * (3 * g + 1) == a * (3 * g + 1) + (3 * g) * (3 * g + 1)
    ensures (k + 3 * (3 * g + 1)) * g == k * g + (3 * g) * (3 * g + 1)
  {
  }

  /** What `CoveredIn` accepts is such a sum. */
  lemma {:induction false} Split(g: nat, q: nat, r: nat) returns (a: nat, b: nat)
    requires 0 < g && r < 3 && CoveredIn(g, q, r)
    ensures a * (3 * g + 1) + b * (9 * g + 4) == (3 * q + r) * g
    decreases q
  {
    if q <= 12 * g + r * g + 4 {
      a, b := WindowSplits(g, q, r);
    } else {
      var p := q - (3 * g + 1);
      CoveredBefore(g, q, r);
      a, b := Split(g, p, r);
      Longer(g, a, 3 * p + r);
      assert 3 * q + r == 3 * p + r + 3 * (3 * g + 1);
      a := a + 3 * g;
    }
  }

  /** For the last pass the test is exact. */
  lemma {:induction false} ReachableIff(k: nat)
    ensures Covered(1, k) <==> exists a: nat, b: nat :: k == 4 * a + 13 * b
  {
    if Covered(1, k) {
      var a, b := Split(1, k / 3, k % 3);
      assert k == 4 * a + 13 * b;
    }
    if a: nat, b: nat :| k == 4 * a + 13 * b {
      if b < 3 {
        assert b == 0 || b == 1 || b == 2;
      }
    }
  }

  // ---------- how many distances are not ----------

  /** How many of the distances g, 2g, ..., kg the test does not accept. */
  function Holes(g: nat, k: nat): nat {
    if k == 0 then 0 else Holes(g, k - 1) + (if Covered(g, k) then 0 else 1)
  }

  /** The holes 3p + r with p < q. */
  function ClassHoles(g: nat, q: nat, r: nat): nat {
    if q == 0 then 0 else ClassHoles(g, q - 1, r) + Hole(g, q - 1, r)
  }

  lemma Thirds(q: nat)
    ensures (3 * q) / 3 == (3 * q + 1) / 3 == (3 * q + 2) / 3 == q
    ensures (3 * q) % 3 == 0 && (3 * q + 1) % 3 == 1 && (3 * q + 2) % 3 == 2
  {
  }

  /** 1 for a hole. */
  function Hole(g: nat, q: nat, r: nat): nat {
    if CoveredIn(g, q, r) then 0 else 1
  }

  /** The three distances from 3q on. */
  lemma HolesNext(g: nat, q: nat)
    ensures Holes(g, 3 * q + 2) == (if q == 0 then 0 else Holes(g, 3 * q - 1)) + Hole(g, q, 0) + Hole(g, q, 1) + Hole(g, q, 2)
  {
    Thirds(q);
    assert Holes(g, 3 * q + 2) == Holes(g, 3 * q + 1) + Hole(g, q, 2);
    assert Holes(g, 3 * q + 1) == Holes(g, 3 * q) + Hole(g, q, 1);
  }

  lemma {:induction false} HolesByThrees(g: nat, q: nat)
    ensures Holes(g, 3 * q + 2) == ClassHoles(g, q + 1, 0) + ClassHoles(g, q + 1, 1) + ClassHoles(g, q + 1, 2)
  {
    HolesNext(g, q);
    if q > 0 {
      HolesByThrees(g, q - 1);
    }
  }

  /** How much of the `len` places from `lo` on is below `q`. */
  function Clip(q: nat, lo: nat, len: nat): (n: nat)
    ensures n <= len
  {
    if q <= lo then 0 else if q - lo < len then q - lo else len
  }

  lemma {:induction false} HolesOfZero(g: nat, q: nat)
    ensures ClassHoles(g, q, 0) == Clip(q, 1, 3 * g) + Clip(q, 3 * g + 2, 2 * g) + Clip(q, 6 * g + 3, g)
  {
    if q > 0 {
      HolesOfZero(g, q - 1);
    }
  }

  lemma {:induction false} HolesOfOne(g: nat, q: nat)
    ensures ClassHoles(g, q, 1) == Clip(q, 0, g) + Clip(q, g + 1, 2 * g) + Clip(q, 4 * g + 2, 2 * g) + Clip(q, 7 * g + 3, g)
  {
    if q > 0 {
      HolesOfOne(g, q - 1);
    }
  }

  lemma {:induction false} HolesOfTwo(g: nat, q: nat)
    ensures ClassHoles(g, q, 2) == Clip(q, 0, 2 * g) + Clip(q, 2 * g + 1, 2 * g) + Clip(q, 5 * g + 2, g) + Clip(q, 8 * g + 3, g)
  {
    if q > 0 {
      HolesOfTwo(g, q - 1);
    }
  }

  lemma {:induction false} HolesMonotone(g: nat, k: nat, l: nat)
    requires k <= l
    ensures Holes(g, k) <= Holes(g, l)
    decreases l - k
  {
    if k < l {
      HolesMonotone(g, k, l - 1);
    }
  }

  lemma ClassHolesBounded(g: nat, q: nat, r: nat)
    requires r < 3
    ensures ClassHoles(g, q, r) <= 6 * g
  {
    HolesOfZero(g, q);
    HolesOfOne(g, q);
    HolesOfTwo(g, q);
  }

  /** At most 18g multiples of g are not sums of the two larger gaps. */
  lemma HolesBounded(g: nat, k: nat)
    ensures Holes(g, k) <= 18 * g
  {
    HolesMonotone(g, k, 3 * k + 2);
    HolesByThrees(g, k);
    ClassHolesBounded(g, k + 1, 0);
    ClassHolesBounded(g, k + 1, 1);
    ClassHolesBounded(g, k + 1, 2);
  }

  // ---------- order at these distances ----------

  lemma Times(a: nat, h: nat)
    requires a > 0
    ensures (a - 1) * h + h == a * h
  {
  }

  lemma {:induction false} MultipleOrdered<T>(s: seq<T>, i: nat, h: nat, a: nat, e: nat, comp: (T, T) -> int, d: set<T>)
    requires e == a * h && e <= i < |s| && 0 < h && Within(s, d) && OrderOn(comp, d) && GapSorted(s, h, comp)
    ensures LessEq(comp, s[i - e], s[i])
    decreases a
  {
    if a == 0 {
      assert LessEq(comp, s[i], s[i]);
    } else {
      Times(a, h);
      assert e >= h;
      MultipleOrdered(s, i - h, h, a - 1, e - h, comp, d);
      assert LessEq(comp, s[i - h], s[i]);
    }
  }

  lemma CoveredOrdered<T>(s: seq<T>, i: nat, k: nat, e: nat, g: nat, comp: (T, T) -> int, d: set<T>)
    requires 0 < g && e == k * g && e <= i < |s| && Covered(g, k) && Within(s, d) && OrderOn(comp, d)
    requires GapSorted(s, 3 * g + 1, comp) && GapSorted(s, 9 * g + 4, comp)
    ensures LessEq(comp, s[i - e], s[i])
  {
    var a, b := Split(g, k / 3, k % 3);
    assert 3 * (k / 3) + k % 3 == k;
    var e1, e2 := a * (3 * g + 1), b * (9 * g + 4);
    MultipleOrdered(s, i, 3 * g + 1, a, e1, comp, d);
    MultipleOrdered(s, i - e1, 9 * g + 4, b, e2, comp, d);
  }

  /** Only at uncovered distances below `i` can there be anything greater. */
  lemma {:induction false} AboveAtHoles<T>(s: seq<T>, i: nat, k: nat, e: nat, g: nat, comp: (T, T) -> int, d: set<T>)
    requires 0 < g && e == k * g && e <= i < |s| && Within(s, d) && OrderOn(comp, d)
    requires GapSorted(s, 3 * g + 1, comp) && GapSorted(s, 9 * g + 4, comp)
    ensures Above(s, i - e, g, s[i], comp) + Holes(g, k) <= 18 * g
    decreases i - e
  {
    if i - e < g {
      HolesBounded(g, k);
    } else {
      assert (k + 1) * g == e + g;
      AboveAtHoles(s, i, k + 1, e + g, g, comp, d);
      if Covered(g, k + 1) {
        CoveredOrdered(s, i, k + 1, e + g, g, comp, d);
      }
    }
  }

  // ---------- one pass ----------

  /** In a pass at gap g over a sequence sorted at 3g + 1 and 9g + 4, outer index `i` makes at most 18g swaps. */
  lemma FewMoves<T>(s: seq<T>, i: nat, g: nat, comp: (T, T) -> int, d: set<T>)
    requires 0 < g && i < |s| && Within(s, d) && OrderOn(comp, d)
    requires GapSorted(s, 3 * g + 1, comp) && GapSorted(s, 9 * g + 4, comp)
    ensures SiftMoves(Pass(s, g, i, comp), i, g, comp) <= 18 * g
  {
    var t := Pass(s, g, i, comp);
    PassLocal(s, g, i, comp);
    MovesBounded(t, i, g, comp);
    PassKeepsAbove(s, g, i, s[i], comp);
    AboveAtHoles(s, i, 0, 0, g, comp, d);
  }

  /** Moves of a pass, if no outer index makes more than `most`. */
  lemma {:induction false} PassAtMost<T>(s: seq<T>, i: nat, g: nat, comp: (T, T) -> int, most: nat)
    requires 0 < g && i <= |s|
    requires forall j {:trigger Pass(s, g, j, comp)} :: 0 <= j < i ==> SiftMoves(Pass(s, g, j, comp), j, g, comp) <= most
    ensures PassMoves(s, g, i, comp) <= i * most
  {
    if i > g {
      PassAtMost(s, i - 1, g, comp, most);
      Times(i, most);
    }
  }

  // ---------- the last pass ----------

  lemma LastPassSorted<T>(s: seq<T>, comp: (T, T) -> int, d: set<T>)
    requires |s| >= 16 && Within(s, d) && OrderOn(comp, d)
    ensures var last := Passes(s, FirstGap(|s|, 1), 2, comp);
            && GapSorted(last, 4, comp) && GapSorted(last, 13, comp) && Within(last, d)
            && ShellSort(s, comp) == Pass(last, 1, |s|, comp)
  {
    var top := FirstGap(|s|, 1);
    assert Gap(1) == 1 && Gap(2) == 4 && Gap(3) == 13;
    FirstGapInRange(|s|, 1);
    if top < 3 {
      GapMonotone(top, 2);
    }
    PassesSort(s, top, 2, 2, comp, d);
    PassesSort(s, top, 2, 3, comp, d);
    PassesPermute(s, top, 2, comp);
    PermutedWithin(s, Passes(s, top, 2, comp), d);
  }

  /** From 16 elements on, the last pass starts 4-sorted and 13-sorted, makes at most 18 swaps
      for each outer index, and so at most 18 swaps per element in all. */
  lemma FinalPassBound<T>(s: seq<T>, comp: (T, T) -> int, d: set<T>)
    requires |s| >= 16 && Within(s, d) && OrderOn(comp, d)
    ensures var last := Passes(s, FirstGap(|s|, 1), 2, comp);
            && GapSorted(last, 4, comp) && GapSorted(last, 13, comp)
            && ShellSort(s, comp) == Pass(last, 1, |s|, comp)
            && (forall i {:trigger Pass(last, 1, i, comp)} :: 0 <= i < |s| ==> SiftMoves(Pass(last, 1, i, comp), i, 1, comp) <= 18)
            && PassMoves(last, 1, |s|, comp) <= 18 * |s|
  {
    var last := Passes(s, FirstGap(|s|, 1), 2, comp);
    LastPassSorted(s, comp, d);
    forall i {:trigger Pass(last, 1, i, comp)} | 0 <= i < |s| ensures SiftMoves(Pass(last, 1, i, comp), i, 1, comp) <= 18 {
      FewMoves(last, i, 1, comp, d);
    }
    PassAtMost(last, |s|, 1, comp, 18);
  }
}

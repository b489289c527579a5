/**
  The two branches of `cmp` (c/cl_qsort.c): the comparison, and the subtraction that WRONG_CMP
  selects.  The subtraction wraps around, and the sort is right with it exactly on values that
  lie within 2^31 - 1 of each other.
 */
module Comparators {
  import opened Shellsort
  import opened ShellsortTheorem
  import opened Bytes
  import opened QsortBytes

  const TWO31: int := 0x8000_0000
  const TWO32: int := 0x1_0000_0000

  /** `unsigned int`. */
  type uint = x: int | 0 <= x < 0x1_0000_0000

  /** The `int` with the same 32 bits. */
  function AsInt(x: uint): int {
    if x >= TWO31 then x - TWO32 else x
  }

  /** `*aa - *bb`, returned as `int`. */
  function WrongCmp(a: uint, b: uint): int {
    AsInt((a - b) % TWO32)
  }

  function RightCmp(a: uint, b: uint): int {
    if a > b then 1 else if a == b then 0 else -1
  }

  function Sign(x: int): int {
    if x > 0 then 1 else if x == 0 then 0 else -1
  }

  lemma RightCmpIsSign(a: uint, b: uint)
    ensures RightCmp(a, b) == Sign(a - b)
  {
  }

  predicate WithinHalf(d: set<uint>) {
    forall x, y :: x in d && y in d ==> x - y < TWO31
  }

  lemma WrongCmpValue(a: uint, b: uint)
    ensures WrongCmp(a, b) ==
      if a - b >= TWO31 then a - b - TWO32
      else if a - b < -TWO31 then a - b + TWO32
      else a - b
  {
    if a >= b {
      assert (a - b) % TWO32 == a - b;
    } else {
      assert (a - b) % TWO32 == a - b + TWO32;
    }
  }

  /** The subtraction has the sign of the comparison on all pairs iff no difference reaches 2^31. */
  lemma SameSignIff(d: set<uint>)
    ensures (forall x, y :: x in d && y in d ==> Sign(WrongCmp(x, y)) == Sign(RightCmp(x, y))) <==> WithinHalf(d)
  {
    forall x: uint, y: uint ensures WrongCmp(x, y) ==
      if x - y >= TWO31 then x - y - TWO32 else if x - y < -TWO31 then x - y + TWO32 else x - y
    {
      WrongCmpValue(x, y);
    }
    if x, y :| x in d && y in d && x - y >= TWO31 {
      assert Sign(WrongCmp(x, y)) != Sign(RightCmp(x, y));
    }
  }

  /** Three values each of which the subtraction puts before the next, and the last before the first. */
  lemma WrongCmpCycle()
    ensures WrongCmp(0, 0x6000_0000) < 0 && WrongCmp(0x6000_0000, 0xC000_0000) < 0 && WrongCmp(0xC000_0000, 0) < 0
  {
  }

  lemma RightCmpOrders(d: set<uint>)
    ensures OrderOn(RightCmp, d)
  {
  }

  // ---------- sorting only depends on which results are positive ----------

  ghost predicate Agree<T>(c1: (T, T) -> int, c2: (T, T) -> int, d: set<T>) {
    forall x, y :: x in d && y in d ==> (c1(x, y) <= 0 <==> c2(x, y) <= 0)
  }

  lemma {:induction false} SiftAgrees<T>(s: seq<T>, j: nat, gap: nat, c1: (T, T) -> int, c2: (T, T) -> int, d: set<T>)
    requires 0 < gap && j < |s| && Within(s, d) && Agree(c1, c2, d)
    ensures Sift(s, j, gap, c1) == Sift(s, j, gap, c2)
    decreases j
  {
    if j >= gap && c1(s[j - gap], s[j]) > 0 {
      SiftAgrees(Swap(s, j - gap, j), j - gap, gap, c1, c2, d);
    }
  }

  lemma {:induction false} PassAgrees<T>(s: seq<T>, gap: nat, i: nat, c1: (T, T) -> int, c2: (T, T) -> int, d: set<T>)
    requires 0 < gap && i <= |s| && Within(s, d) && Agree(c1, c2, d)
    ensures Pass(s, gap, i, c1) == Pass(s, gap, i, c2)
    decreases i
  {
    if i > gap {
      PassAgrees(s, gap, i - 1, c1, c2, d);
      var t := Pass(s, gap, i - 1, c1);
      PassPermutes(s, gap, i - 1, c1);
      PermutedWithin(s, t, d);
      SiftAgrees(t, i - 1, gap, c1, c2, d);
    }
  }

  lemma {:induction false} PassesAgree<T>(s: seq<T>, top: nat, m: nat, c1: (T, T) -> int, c2: (T, T) -> int, d: set<T>)
    requires 0 < m && Within(s, d) && Agree(c1, c2, d)
    ensures Passes(s, top, m, c1) == Passes(s, top, m, c2)
    decreases top + 1 - m
  {
    if m <= top {
      GapPositive(m);
      PassesAgree(s, top, m + 1, c1, c2, d);
      var t := Passes(s, top, m + 1, c1);
      PassesPermute(s, top, m + 1, c1);
      PermutedWithin(s, t, d);
      PassAgrees(t, Gap(m), |s|, c1, c2, d);
    }
  }

  lemma ShellSortAgrees<T>(s: seq<T>, c1: (T, T) -> int, c2: (T, T) -> int, d: set<T>)
    requires Within(s, d) && Agree(c1, c2, d)
    ensures ShellSort(s, c1) == ShellSort(s, c2)
  {
    if |s| > 1 {
      PassesAgree(s, FirstGap(|s|, 1), 1, c1, c2, d);
    }
  }

  // ---------- when the wrong comparator sorts ----------

  lemma SortTwo<T>(s: seq<T>, comp: (T, T) -> int)
    requires |s| == 2
    ensures ShellSort(s, comp) == if comp(s[0], s[1]) <= 0 then s else [s[1], s[0]]
  {
    assert Gap(1) == 1;
    assert FirstGap(2, 1) == 1;
    assert Passes(s, 1, 2, comp) == s;
    assert Pass(s, 1, 1, comp) == s;
    assert Pass(s, 1, 2, comp) == Sift(s, 1, 1, comp);
  }

  /** Two values too far apart stay in the wrong order. */
  lemma WrongOrderStays(x: uint, y: uint)
    requires x - y >= TWO31
    ensures !Sorted(ShellSort([x, y], WrongCmp), RightCmp)
  {
    WrongCmpValue(x, y);
    SortTwo([x, y], WrongCmp);
    assert !LessEq(RightCmp, [x, y][0], [x, y][1]);
  }

  lemma WrongCmpSorts(d: set<uint>, s: seq<uint>)
    requires WithinHalf(d) && Within(s, d)
    ensures ShellSort(s, WrongCmp) == ShellSort(s, RightCmp) && Sorted(ShellSort(s, WrongCmp), RightCmp)
  {
    RightCmpOrders(d);
    SameSignIff(d);
    forall x, y | x in d && y in d ensures WrongCmp(x, y) <= 0 <==> RightCmp(x, y) <= 0 {
      assert Sign(WrongCmp(x, y)) == Sign(RightCmp(x, y));
    }
    ShellSortAgrees(s, WrongCmp, RightCmp, d);
    ShellSortSorts(s, RightCmp, d);
  }

  /** With the subtraction the sort gives a sorted result on every arrangement of values of
      `d` iff all values of `d` lie within 2^31 - 1 of each other. */
  lemma WrongCmpSortsIff(d: set<uint>)
    ensures (forall s: seq<uint> :: Within(s, d) ==> Sorted(ShellSort(s, WrongCmp), RightCmp)) <==> WithinHalf(d)
  {
    if WithinHalf(d) {
      forall s: seq<uint> | Within(s, d) ensures Sorted(ShellSort(s, WrongCmp), RightCmp) {
        WrongCmpSorts(d, s);
      }
    } else {
      var x, y :| x in d && y in d && x - y >= TWO31;
      var s: seq<uint> := [x, y];
      assert Within(s, d);
      WrongOrderStays(x, y);
    }
  }

  // ---------- cmp on the bytes of two elements ----------

  /** The `unsigned int` that a little-endian machine reads from the first four bytes. */
  function ReadWord(b: seq<byte>): uint {
    if |b| < 4 then 0 else b[0] as int + 0x100 * b[1] as int + 0x1_0000 * b[2] as int + 0x100_0000 * b[3] as int
  }

  /** Which digit of the word each byte is. */
  lemma ReadWordDigits(b: seq<byte>)
    requires |b| >= 4
    ensures var w := ReadWord(b);
            w % 0x100 == b[0] && w / 0x100 % 0x100 == b[1] && w / 0x1_0000 % 0x100 == b[2] && w / 0x100_0000 == b[3]
  {
    var w, top := ReadWord(b), b[2] as int + 0x100 * b[3] as int;
    Low1(w, b[0], b[1] as int + 0x100 * top);
    Low1(b[1] as int + 0x100 * top, b[1], top);
    Low2(w, b[0] as int + 0x100 * b[1] as int, top);
    Low1(top, b[2], b[3]);
    Low3(w, b[0] as int + 0x100 * b[1] as int + 0x1_0000 * b[2] as int, b[3]);
  }

  lemma Low1(w: int, low: int, high: int)
    requires w == low + 0x100 * high && 0 <= low < 0x100
    ensures w % 0x100 == low && w / 0x100 == high
  {
  }

  lemma Low2(w: int, low: int, high: int)
    requires w == low + 0x1_0000 * high && 0 <= low < 0x1_0000
    ensures w / 0x1_0000 == high
  {
  }

  lemma Low3(w: int, low: int, high: int)
    requires w == low + 0x100_0000 * high && 0 <= low < 0x100_0000
    ensures w / 0x100_0000 == high
  {
  }

  /** `cmp` without WRONG_CMP orders elements by their last byte, then the one before it, ... */
  predicate ComesBefore(a: seq<byte>, b: seq<byte>, k: nat)
    requires k <= 4 <= |a| && 4 <= |b|
  {
    k > 0 && (a[k - 1] < b[k - 1] || (a[k - 1] == b[k - 1] && ComesBefore(a, b, k - 1)))
  }

  lemma CmpFromLastByte(a: seq<byte>, b: seq<byte>)
    requires |a| >= 4 && |b| >= 4
    ensures Cmp(false)(a, b) < 0 <==> ComesBefore(a, b, 4)
    ensures Cmp(false)(a, b) > 0 <==> ComesBefore(b, a, 4)
  {
    WordBefore(a, b);
    WordBefore(b, a);
  }

  lemma WordBefore(a: seq<byte>, b: seq<byte>)
    requires |a| >= 4 && |b| >= 4
    ensures ReadWord(a) < ReadWord(b) <==> ComesBefore(a, b, 4)
  {
    assert ComesBefore(a, b, 1) <==> a[0] < b[0];
    assert ComesBefore(a, b, 2) <==> a[1] < b[1] || (a[1] == b[1] && a[0] < b[0]);
    assert ComesBefore(a, b, 3) <==> a[2] < b[2] || (a[2] == b[2] && ComesBefore(a, b, 2));
  }

  function Cmp(wrong: bool): Comparator {
    (a, b) => if wrong then WrongCmp(ReadWord(a), ReadWord(b)) else RightCmp(ReadWord(a), ReadWord(b))
  }

  lemma ReadWordInjective(a: seq<byte>, b: seq<byte>)
    requires |a| == |b| == 4 && ReadWord(a) == ReadWord(b)
    ensures a == b
  {
    assert a[0] == b[0] by { LowByte(a[0], a[1] as int + 0x100 * a[2] as int + 0x1_0000 * a[3] as int, b[0], b[1] as int + 0x100 * b[2] as int + 0x1_0000 * b[3] as int); }
    assert a[1] == b[1] by { LowByte(a[1], a[2] as int + 0x100 * a[3] as int, b[1], b[2] as int + 0x100 * b[3] as int); }
    assert a[2] == b[2] by { LowByte(a[2], a[3], b[2], b[3]); }
  }

  lemma LowByte(x: byte, high: int, y: byte, high': int)
    requires x as int + 0x100 * high == y as int + 0x100 * high'
    ensures x == y && high == high'
  {
  }

  ghost predicate TellsApart<T>(comp: (T, T) -> int, s: seq<T>) {
    forall i, j :: 0 <= i < |s| && 0 <= j < |s| && LessEq(comp, s[i], s[j]) && LessEq(comp, s[j], s[i]) ==> s[i] == s[j]
  }

  lemma SortedSameFirst<T>(s: seq<T>, t: seq<T>, comp: (T, T) -> int)
    requires s != [] && multiset(s) == multiset(t) && Sorted(s, comp) && Sorted(t, comp) && TellsApart(comp, s)
    ensures t != [] && s[0] == t[0]
  {
    assert s[0] in multiset(t);
    var j :| 0 <= j < |t| && t[j] == s[0];
    assert t[0] in multiset(s);
    var i :| 0 <= i < |s| && s[i] == t[0];
    assert i > 0 ==> LessEq(comp, s[0], s[i]);
    assert j > 0 ==> LessEq(comp, t[0], t[j]);
  }

  lemma RestMultiset<T>(s: seq<T>)
    requires s != []
    ensures multiset(s[1..]) == multiset(s) - multiset{s[0]}
  {
    assert s == [s[0]] + s[1..];
  }

  lemma RestSorted<T>(s: seq<T>, comp: (T, T) -> int)
    requires s != [] && Sorted(s, comp)
    ensures Sorted(s[1..], comp)
  {
    var r := s[1..];
    forall i, j | 0 <= i < j < |r| ensures LessEq(comp, r[i], r[j]) {
      assert LessEq(comp, s[i + 1], s[j + 1]);
    }
  }

  lemma RestTellsApart<T>(s: seq<T>, comp: (T, T) -> int)
    requires s != [] && TellsApart(comp, s)
    ensures TellsApart(comp, s[1..])
  {
    var r := s[1..];
    forall i, j | 0 <= i < |r| && 0 <= j < |r| && LessEq(comp, r[i], r[j]) && LessEq(comp, r[j], r[i]) ensures r[i] == r[j] {
      assert r[i] == s[i + 1] && r[j] == s[j + 1];
    }
  }

  /** A sorted permutation is unique when the order tells all values apart. */
  lemma {:induction false} SortedUnique<T>(s: seq<T>, t: seq<T>, comp: (T, T) -> int)
    requires multiset(s) == multiset(t) && Sorted(s, comp) && Sorted(t, comp) && TellsApart(comp, s)
    ensures s == t
    decreases |s|
  {
    if s == [] {
      assert |multiset(t)| == 0;
    } else {
      SortedSameFirst(s, t, comp);
      RestMultiset(s);
      RestMultiset(t);
      RestSorted(s, comp);
      RestSorted(t, comp);
      RestTellsApart(s, comp);
      SortedUnique(s[1..], t[1..], comp);
      assert s == [s[0]] + s[1..] && t == [t[0]] + t[1..];
    }
  }

  /** On four-byte elements whose words lie within 2^31 - 1 of each other, `uclibc_qsort` gives
      the same array with either branch of `cmp`: the one sorted permutation there is. */
  lemma EitherBranch(bs: seq<seq<byte>>, t: seq<seq<byte>>)
    requires forall i :: 0 <= i < |bs| ==> |bs[i]| == 4
    requires forall i, j :: 0 <= i < |bs| && 0 <= j < |bs| ==> ReadWord(bs[i]) - ReadWord(bs[j]) < TWO31
    requires multiset(t) == multiset(bs) && Sorted(t, Cmp(false))
    ensures ShellSort(bs, Cmp(true)) == ShellSort(bs, Cmp(false)) == t
  {
    var d := set b | b in bs;
    assert Within(bs, d);
    assert OrderOn(Cmp(false), d);
    assert Agree(Cmp(true), Cmp(false), d) by {
      forall x, y | x in d && y in d ensures Cmp(true)(x, y) <= 0 <==> Cmp(false)(x, y) <= 0 {
        WrongCmpValue(ReadWord(x), ReadWord(y));
      }
    }
    ShellSortAgrees(bs, Cmp(true), Cmp(false), d);
    ShellSortSorts(bs, Cmp(false), d);
    ShellSortPermutes(bs, Cmp(false));
    forall i, j | 0 <= i < |t| && 0 <= j < |t| && LessEq(Cmp(false), t[i], t[j]) && LessEq(Cmp(false), t[j], t[i])
      ensures t[i] == t[j]
    {
      assert t[i] in multiset(bs) && t[j] in multiset(bs);
      ReadWordInjective(t[i], t[j]);
    }
    SortedUnique(t, ShellSort(bs, Cmp(false)), Cmp(false));
  }
}

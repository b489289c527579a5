/**
  The first `qsort` and its `part` (clj/clj-proj/src/my_proj/core.clj) on vectors of numbers.
 */
module Quicksort {

  /** A long, a double, or the double that compares false with everything. */
  datatype Number = Long(n: int) | Double(x: real) | NaN {
    function Value(): real {
      match this
      case Long(n) => n as real
      case Double(x) => x
      case NaN => 0.0
    }
  }

  predicate LessEq(a: Number, b: Number) {
    !a.NaN? && !b.NaN? && a.Value() <= b.Value()
  }

  predicate Greater(a: Number, b: Number) {
    !a.NaN? && !b.NaN? && a.Value() > b.Value()
  }

  // ---------- the program ----------

  function Last(a: seq<Number>): Number
    requires a != []
  {
    a[|a| - 1]
  }

  function Pop(a: seq<Number>): (r: seq<Number>)
    requires a != []
    ensures |r| == |a| - 1
  {
    a[..|a| - 1]
  }

  function Part(a: seq<Number>, pivot: Number, cmp: (Number, Number) -> bool): (r: seq<Number>)
    ensures |r| <= |a|
  {
    if a == [] then []
    else if cmp(Last(a), pivot) then Part(Pop(a), pivot, cmp) + [Last(a)]
    else Part(Pop(a), pivot, cmp)
  }

  function Qsort(a: seq<Number>): seq<Number>
    decreases |a|
  {
    if a == [] then []
    else Qsort(Part(Pop(a), Last(a), LessEq)) + [Last(a)] + Qsort(Part(Pop(a), Last(a), Greater))
  }

  /** How often `Part` calls its comparator. */
  function PartCalls(a: seq<Number>): nat {
    if a == [] then 0 else 1 + PartCalls(Pop(a))
  }

  /** How often `Qsort` makes `Part` call a comparator. */
  function Calls(a: seq<Number>): nat
    decreases |a|
  {
    if a == [] then 0
    else
      PartCalls(Pop(a)) + PartCalls(Pop(a))
      + Calls(Part(Pop(a), Last(a), LessEq)) + Calls(Part(Pop(a), Last(a), Greater))
  }

  // ---------- elements of one value ----------

  ghost predicate Comparable(s: seq<Number>) {
    forall i :: 0 <= i < |s| ==> !s[i].NaN?
  }

  /** The elements of `s` that equal `v`, in order. */
  function Only(s: seq<Number>, v: real): seq<Number> {
    if s == [] then []
    else (if !s[0].NaN? && s[0].Value() == v then [s[0]] else []) + Only(s[1..], v)
  }

  lemma {:induction false} OnlyConcat(s: seq<Number>, t: seq<Number>, v: real)
    ensures Only(s + t, v) == Only(s, v) + Only(t, v)
  {
    if s == [] {
      assert s + t == t;
    } else {
      assert (s + t)[1..] == s[1..] + t;
      OnlyConcat(s[1..], t, v);
    }
  }

  lemma OnlyLast(a: seq<Number>, v: real)
    requires a != []
    ensures Only(a, v) == Only(Pop(a), v) + (if !Last(a).NaN? && Last(a).Value() == v then [Last(a)] else [])
  {
    assert a == Pop(a) + [Last(a)];
    OnlyConcat(Pop(a), [Last(a)], v);
  }

  /** `Part` keeps, in order, just the elements on its side of the pivot. */
  lemma {:induction false} PartOnly(a: seq<Number>, pivot: Number, v: real)
    requires !pivot.NaN?
    ensures Only(Part(a, pivot, LessEq), v) == if v <= pivot.Value() then Only(a, v) else []
    ensures Only(Part(a, pivot, Greater), v) == if v > pivot.Value() then Only(a, v) else []
  {
    if a != [] {
      var x := Last(a);
      PartOnly(Pop(a), pivot, v);
      OnlyLast(a, v);
      if LessEq(x, pivot) {
        OnlyConcat(Part(Pop(a), pivot, LessEq), [x], v);
        assert Part(a, pivot, Greater) == Part(Pop(a), pivot, Greater);
      } else if Greater(x, pivot) {
        OnlyConcat(Part(Pop(a), pivot, Greater), [x], v);
        assert Part(a, pivot, LessEq) == Part(Pop(a), pivot, LessEq);
      }
    }
  }

  /** Both parts are on their side of the pivot, so there is no NaN in them. */
  lemma {:induction false} PartSides(a: seq<Number>, pivot: Number)
    ensures forall i :: 0 <= i < |Part(a, pivot, LessEq)| ==> LessEq(Part(a, pivot, LessEq)[i], pivot)
    ensures forall i :: 0 <= i < |Part(a, pivot, Greater)| ==> Greater(Part(a, pivot, Greater)[i], pivot)
    ensures Comparable(Part(a, pivot, LessEq)) && Comparable(Part(a, pivot, Greater))
  {
    if a != [] {
      PartSides(Pop(a), pivot);
    }
  }

  lemma OnlyJoin(s: seq<Number>, x: Number, t: seq<Number>, v: real)
    ensures Only(s + [x] + t, v) == Only(s, v) + (if !x.NaN? && x.Value() == v then [x] else []) + Only(t, v)
  {
    OnlyConcat(s + [x], t, v);
    OnlyConcat(s, [x], v);
    assert Only([x], v) == if !x.NaN? && x.Value() == v then [x] else [];
  }

  /** Equal elements keep their order: for every value, the elements of that value are the same
      sequence before and after.  Only a NaN that is the last element spoils this. */
  lemma {:induction false} QsortStable(a: seq<Number>, v: real)
    requires a != [] ==> !Last(a).NaN?
    ensures Only(Qsort(a), v) == Only(a, v)
    decreases |a|
  {
    if a != [] {
      var pivot := Last(a);
      var l, r := Part(Pop(a), pivot, LessEq), Part(Pop(a), pivot, Greater);
      PartSides(Pop(a), pivot);
      QsortStable(l, v);
      QsortStable(r, v);
      OnlyJoin(Qsort(l), pivot, Qsort(r), v);
      PartOnly(Pop(a), pivot, v);
      OnlyLast(a, v);
    }
  }

  // ---------- order ----------

  ghost predicate Sorted(s: seq<Number>) {
    forall i, j :: 0 <= i < j < |s| ==> LessEq(s[i], s[j])
  }

  lemma {:induction false} PartMultiset(a: seq<Number>, pivot: Number)
    requires Comparable(a) && !pivot.NaN?
    ensures multiset(Part(a, pivot, LessEq)) + multiset(Part(a, pivot, Greater)) == multiset(a)
  {
    if a != [] {
      PartMultiset(Pop(a), pivot);
      assert a == Pop(a) + [Last(a)];
    }
  }

  lemma JoinMultiset(s: seq<Number>, x: Number, t: seq<Number>)
    ensures multiset(s + [x] + t) == multiset(s) + multiset{x} + multiset(t)
  {
  }

  lemma LastMultiset(a: seq<Number>)
    requires a != []
    ensures multiset(a) == multiset(Pop(a)) + multiset{Last(a)}
  {
    assert a == Pop(a) + [Last(a)];
  }

  lemma {:induction false} QsortPermutes(a: seq<Number>)
    requires Comparable(a)
    ensures multiset(Qsort(a)) == multiset(a)
    decreases |a|
  {
    if a != [] {
      var pivot := Last(a);
      PartSides(Pop(a), pivot);
      PartMultiset(Pop(a), pivot);
      var l, r := Part(Pop(a), pivot, LessEq), Part(Pop(a), pivot, Greater);
      QsortPermutes(l);
      QsortPermutes(r);
      JoinMultiset(Qsort(l), pivot, Qsort(r));
      LastMultiset(a);
    }
  }

  lemma PermutationKeeps(s: seq<Number>, t: seq<Number>, x: Number)
    requires multiset(s) == multiset(t) && x in t
    ensures x in s
  {
    assert x in multiset(t);
  }

  /** The result is sorted whatever the input: a NaN stays only if the last element is one, and
      then alone. */
  lemma {:induction false} QsortSorts(a: seq<Number>)
    ensures Sorted(Qsort(a))
    decreases |a|
  {
    if a != [] {
      var pivot := Last(a);
      var l, r := Part(Pop(a), pivot, LessEq), Part(Pop(a), pivot, Greater);
      PartSides(Pop(a), pivot);
      QsortSorts(l);
      QsortSorts(r);
      QsortPermutes(l);
      QsortPermutes(r);
      forall x | x in Qsort(l) ensures LessEq(x, pivot) {
        PermutationKeeps(l, Qsort(l), x);
      }
      forall x | x in Qsort(r) ensures Greater(x, pivot) {
        PermutationKeeps(r, Qsort(r), x);
      }
      JoinSorted(Qsort(l), pivot, Qsort(r));
    }
  }

  lemma JoinSorted(s: seq<Number>, pivot: Number, t: seq<Number>)
    requires Sorted(s) && Sorted(t)
    requires (forall x :: x in s ==> LessEq(x, pivot)) && (forall x :: x in t ==> Greater(x, pivot))
    ensures Sorted(s + [pivot] + t)
  {
    var u := s + [pivot] + t;
    forall i, j | 0 <= i < j < |u| ensures LessEq(u[i], u[j]) {
      if i < |s| {
        assert u[i] in s;
      }
      if j > |s| {
        assert u[j] in t;
      }
    }
  }

  /** There is only one sorted sequence with the elements of each value in a given order. */
  lemma {:induction false} StableSortUnique(s: seq<Number>, t: seq<Number>)
    requires Sorted(s) && Sorted(t) && Comparable(s) && Comparable(t)
    requires forall v :: Only(s, v) == Only(t, v)
    ensures s == t
    decreases |s|
  {
    if s == [] {
      if t != [] {
        SameFirst(t, s);
      }
    } else {
      SameFirst(s, t);
      forall v ensures Only(s[1..], v) == Only(t[1..], v) {
        assert Only(s, v) == Only(t, v);
        OnlyRest(s, t, v);
      }
      StableSortUnique(s[1..], t[1..]);
      assert s == [s[0]] + s[1..] && t == [t[0]] + t[1..];
    }
  }

  lemma OnlyRest(s: seq<Number>, t: seq<Number>, v: real)
    requires s != [] && t != [] && s[0] == t[0] && Only(s, v) == Only(t, v)
    ensures Only(s[1..], v) == Only(t[1..], v)
  {
    var first := if !s[0].NaN? && s[0].Value() == v then [s[0]] else [];
    assert Only(s[1..], v) == Only(s, v)[|first|..];
    assert Only(t[1..], v) == Only(t, v)[|first|..];
  }

  lemma {:induction false} OnlyMember(s: seq<Number>, v: real)
    requires Only(s, v) != []
    ensures exists i :: 0 <= i < |s| && !s[i].NaN? && s[i].Value() == v
  {
    if s[0].NaN? || s[0].Value() != v {
      OnlyMember(s[1..], v);
      var i :| 0 <= i < |s[1..]| && !s[1..][i].NaN? && s[1..][i].Value() == v;
      assert s[i + 1] == s[1..][i];
    }
  }

  lemma SameFirst(s: seq<Number>, t: seq<Number>)
    requires Sorted(s) && Sorted(t) && Comparable(s) && Comparable(t) && s != []
    requires forall v :: Only(s, v) == Only(t, v)
    ensures t != [] && s[0] == t[0]
  {
    var v := s[0].Value();
    assert Only(s, v)[0] == s[0];
    assert Only(t, v) == Only(s, v);
    OnlyMember(t, v);
    var i :| 0 <= i < |t| && t[i].Value() == v;
    var u := t[0].Value();
    assert Only(t, u)[0] == t[0];
    assert Only(s, u) == Only(t, u);
    OnlyMember(s, u);
    var j :| 0 <= j < |s| && s[j].Value() == u;
    assert i > 0 ==> LessEq(t[0], t[i]);
    assert j > 0 ==> LessEq(s[0], s[j]);
    assert u == v;
  }

  // ---------- incomparable elements ----------

  lemma {:induction false} PartLength(a: seq<Number>, pivot: Number)
    ensures |Part(a, pivot, LessEq)| + |Part(a, pivot, Greater)| <= |a|
    ensures pivot.NaN? ==> Part(a, pivot, LessEq) == Part(a, pivot, Greater) == []
    ensures !Comparable(a) ==> |Part(a, pivot, LessEq)| + |Part(a, pivot, Greater)| < |a|
  {
    if a != [] {
      PartLength(Pop(a), pivot);
      assert !Comparable(a) ==> !Comparable(Pop(a)) || Last(a).NaN?;
    }
  }

  lemma {:induction false} QsortLength(a: seq<Number>)
    ensures |Qsort(a)| <= |a|
    decreases |a|
  {
    if a != [] {
      PartLength(Pop(a), Last(a));
      QsortLength(Part(Pop(a), Last(a), LessEq));
      QsortLength(Part(Pop(a), Last(a), Greater));
    }
  }

  lemma QsortLoses(a: seq<Number>)
    requires !Comparable(a) && |a| > 1
    ensures |Qsort(a)| < |a|
  {
    var l, r := Part(Pop(a), Last(a), LessEq), Part(Pop(a), Last(a), Greater);
    PartLength(Pop(a), Last(a));
    QsortLength(l);
    QsortLength(r);
    assert !Comparable(Pop(a)) || Last(a).NaN?;
  }

  lemma DifferentLength(s: seq<Number>, t: seq<Number>)
    requires |s| != |t|
    ensures multiset(s) != multiset(t)
  {
    assert |multiset(s)| == |s| && |multiset(t)| == |t|;
  }

  /** Nothing is lost iff there is nothing incomparable, or nothing to compare with. */
  lemma QsortPermutesIff(a: seq<Number>)
    ensures multiset(Qsort(a)) == multiset(a) <==> Comparable(a) || |a| <= 1
  {
    if Comparable(a) {
      QsortPermutes(a);
    } else if |a| == 1 {
      assert Pop(a) == [];
      assert Qsort(a) == Qsort([]) + [Last(a)] + Qsort([]);
      assert Qsort(a) == a;
    } else {
      QsortLoses(a);
      DifferentLength(Qsort(a), a);
    }
  }

  lemma NaNLast(a: seq<Number>)
    requires a != [] && Last(a).NaN?
    ensures Qsort(a) == [Last(a)]
  {
    PartLength(Pop(a), Last(a));
  }

  lemma {:induction false} NothingComparable(a: seq<Number>, v: real)
    requires forall i :: 0 <= i < |a| ==> a[i].NaN?
    ensures Only(a, v) == []
  {
    if a != [] {
      NothingComparable(a[1..], v);
    }
  }

  lemma {:induction false} OnlyAt(a: seq<Number>, i: nat)
    requires i < |a| && !a[i].NaN?
    ensures Only(a, a[i].Value()) != []
  {
    if i > 0 {
      OnlyAt(a[1..], i - 1);
    }
  }

  /** The sort is stable iff its last element is comparable, or nothing is. */
  lemma QsortStableIff(a: seq<Number>)
    ensures (forall v :: Only(Qsort(a), v) == Only(a, v)) <==>
            a == [] || !Last(a).NaN? || forall i :: 0 <= i < |a| ==> a[i].NaN?
  {
    if a == [] || !Last(a).NaN? {
      forall v ensures Only(Qsort(a), v) == Only(a, v) {
        QsortStable(a, v);
      }
    } else {
      NaNLast(a);
      forall v ensures Only(Qsort(a), v) == [] {
        NothingComparable(Qsort(a), v);
      }
      if i :| 0 <= i < |a| && !a[i].NaN? {
        OnlyAt(a, i);
      } else {
        forall v ensures Only(a, v) == [] {
          NothingComparable(a, v);
        }
      }
    }
  }

  // ---------- comparator calls ----------

  lemma {:induction false} PartCallsLength(a: seq<Number>)
    ensures PartCalls(a) == |a|
  {
    if a != [] {
      PartCallsLength(Pop(a));
    }
  }

  lemma TimesMonotone(x: int, y: int, z: int)
    requires x <= y && 0 <= z
    ensures x * z <= y * z && z * x <= z * y
  {
  }

  lemma SumBound(l: nat, r: nat, m: nat)
    requires l + r <= m
    ensures 2 * m + l * (l - 1) + r * (r - 1) <= (m + 1) * m
  {
    if m > 0 {
      TimesMonotone(l - 1, m - 1, l);
      TimesMonotone(r - 1, m - 1, r);
      TimesMonotone(l + r, m, m - 1);
      assert l * (m - 1) + r * (m - 1) == (l + r) * (m - 1);
      assert (m + 1) * m == 2 * m + m * (m - 1);
    }
  }

  /** At most n(n - 1) comparator calls, ... */
  lemma {:induction false} CallsBound(a: seq<Number>)
    ensures Calls(a) <= |a| * (|a| - 1)
    decreases |a|
  {
    if a != [] {
      var l, r := Part(Pop(a), Last(a), LessEq), Part(Pop(a), Last(a), Greater);
      PartCallsLength(Pop(a));
      PartLength(Pop(a), Last(a));
      CallsBound(l);
      CallsBound(r);
      var m := |a| - 1;
      assert Calls(a) == m + m + Calls(l) + Calls(r);
      SumBound(|l|, |r|, m);
    }
  }

  lemma {:induction false} PartAll(a: seq<Number>, pivot: Number)
    requires forall i :: 0 <= i < |a| ==> LessEq(a[i], pivot)
    ensures Part(a, pivot, LessEq) == a && Part(a, pivot, Greater) == []
  {
    if a != [] {
      PartAll(Pop(a), pivot);
      assert a == Pop(a) + [Last(a)];
    }
  }

  /** ... and a sorted vector takes them all. */
  lemma {:induction false} CallsWorstCase(a: seq<Number>)
    requires Sorted(a)
    ensures Calls(a) == |a| * (|a| - 1)
    decreases |a|
  {
    if a != [] {
      PartAll(Pop(a), Last(a));
      PartCallsLength(Pop(a));
      CallsWorstCase(Pop(a));
      var m := |a| - 1;
      assert 2 * m + m * (m - 1) == (m + 1) * m;
    }
  }

  lemma {:induction false} PartNone(a: seq<Number>, pivot: Number)
    requires forall i :: 0 <= i < |a| ==> Greater(a[i], pivot)
    ensures Part(a, pivot, Greater) == a && Part(a, pivot, LessEq) == []
  {
    if a != [] {
      PartNone(Pop(a), pivot);
      assert a == Pop(a) + [Last(a)];
    }
  }

  /** A strictly descending vector takes them all too. */
  lemma {:induction false} CallsDescending(a: seq<Number>)
    requires forall i, j :: 0 <= i < j < |a| ==> Greater(a[i], a[j])
    ensures Calls(a) == |a| * (|a| - 1)
    decreases |a|
  {
    if a != [] {
      PartCallsLength(Pop(a));
      PartNone(Pop(a), Last(a));
      CallsDescending(Pop(a));
      var m := |a| - 1;
      assert (m + 1) * m == 2 * m + m * (m - 1);
    }
  }

  // ---------- the sort with a log of its comparator calls ----------

  /** A call of `<=` or `>`. */
  datatype Comparison = Comparison(greater: bool, x: Number, pivot: Number) {
    predicate Answer() {
      if greater then Greater(x, pivot) else LessEq(x, pivot)
    }
  }

  /** `Part`, and the comparator calls it makes, one after the other. */
  function PartLogged(a: seq<Number>, pivot: Number, greater: bool): (r: (seq<Number>, seq<Comparison>))
    ensures |r.0| <= |a|
  {
    if a == [] then ([], [])
    else
      var call := Comparison(greater, Last(a), pivot);
      var (rest, log) := PartLogged(Pop(a), pivot, greater);
      (if call.Answer() then rest + [Last(a)] else rest, [call] + log)
  }

  /** `Qsort`, and all its comparator calls. */
  function QsortLogged(a: seq<Number>): (seq<Number>, seq<Comparison>)
    decreases |a|
  {
    if a == [] then ([], [])
    else
      var (l, log1) := PartLogged(Pop(a), Last(a), false);
      var (below, log2) := QsortLogged(l);
      var (r, log3) := PartLogged(Pop(a), Last(a), true);
      var (above, log4) := QsortLogged(r);
      (below + [Last(a)] + above, log1 + log2 + log3 + log4)
  }

  lemma {:induction false} PartLoggedIsPart(a: seq<Number>, pivot: Number, greater: bool)
    ensures PartLogged(a, pivot, greater).0 == Part(a, pivot, if greater then Greater else LessEq)
    ensures |PartLogged(a, pivot, greater).1| == |a|
  {
    if a != [] {
      PartLoggedIsPart(Pop(a), pivot, greater);
    }
  }

  /** `Calls` counts the comparator calls of the sort. */
  lemma {:induction false} QsortLoggedIsQsort(a: seq<Number>)
    ensures QsortLogged(a).0 == Qsort(a) && |QsortLogged(a).1| == Calls(a)
    decreases |a|
  {
    if a != [] {
      PartLoggedIsPart(Pop(a), Last(a), false);
      PartLoggedIsPart(Pop(a), Last(a), true);
      PartCallsLength(Pop(a));
      QsortLoggedIsQsort(Part(Pop(a), Last(a), LessEq));
      QsortLoggedIsQsort(Part(Pop(a), Last(a), Greater));
    }
  }
}

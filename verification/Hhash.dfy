/**
  `AllocString` (go/hhash/hhash.go) as a loop over a table of strings, "" marking a free
  slot: when the loop ends, which slot it takes, and what it costs.
 */
module Hhash {

  /** The variables of one call; `wraps` counts calls of `next_wrap`, `copied` copied cells. */
  datatype Scan = Scan(tab: seq<string>, next: nat, wraps: nat, copied: nat) {
    predicate Valid() {
      next < |tab|
    }
  }

  function Cleared(n: nat): (r: seq<string>)
    ensures |r| == n && forall i :: 0 <= i < n ==> r[i] == ""
  {
    if n == 0 then [] else Cleared(n - 1) + [""]
  }

  function NextWrap(sc: Scan): (r: Scan)
    requires sc.Valid()
    ensures r.Valid()
  {
    sc.(next := if sc.next + 1 == |sc.tab| then 0 else sc.next + 1, wraps := sc.wraps + 1)
  }

  /** The variables when the loop is entered. */
  function Enter(tab: seq<string>, last: nat): (r: Scan)
    requires |tab| > 0
    ensures r.Valid()
  {
    NextWrap(Scan(tab, (last + 1) % |tab|, 0, 0))
  }

  function Grow(sc: Scan): (r: Scan)
    requires sc.Valid()
    ensures r.Valid()
  {
    sc.(tab := sc.tab + Cleared(|sc.tab|), copied := sc.copied + |sc.tab|)
  }

  /** The loop breaks at this slot. */
  predicate Exits(sc: Scan, last: nat)
    requires sc.Valid()
  {
    sc.next != 0 && sc.next != last && sc.tab[sc.next] == ""
  }

  /** One iteration that does not break. */
  function Body(sc: Scan, last: nat): (r: Scan)
    requires sc.Valid()
    ensures r.Valid()
  {
    if sc.next != 0 && sc.next == last then NextWrap(Grow(sc)) else NextWrap(sc)
  }

  /** The variables after `n` iterations, or at the break if that comes earlier. */
  function Iterate(sc: Scan, last: nat, n: nat): (r: Scan)
    requires sc.Valid()
    ensures r.Valid()
  {
    if n == 0 then sc
    else
      var m := Iterate(sc, last, n - 1);
      if Exits(m, last) then m else Body(m, last)
  }

  ghost predicate Halts(tab: seq<string>, last: nat)
    requires |tab| > 0
  {
    exists n :: Exits(Iterate(Enter(tab, last), last, n), last)
  }

  /** This slot can end the scan: it is free, or it is `last`. */
  predicate Stops(tab: seq<string>, last: nat, q: int) {
    1 <= q < |tab| && (q == last || tab[q] == "")
  }

  ghost predicate CanReturn(tab: seq<string>, last: nat) {
    exists q :: Stops(tab, last, q)
  }

  // ---------- what a call does ----------

  /** The first slot looked at. */
  function Origin(tab: seq<string>, last: nat): (r: nat)
    requires |tab| > 0
    ensures r < |tab|
  {
    Enter(tab, last).next
  }

  /** How many steps the circular scan takes to slot `i`. */
  function Ahead(tab: seq<string>, last: nat, i: nat): (d: nat)
    requires i < |tab|
    ensures d < |tab|
  {
    var o := Origin(tab, last);
    if i >= o then i - o else i + |tab| - o
  }

  /** All slots the scan meets before slot `i` are taken, and none is `last`. */
  ghost predicate PassedBefore(tab: seq<string>, last: nat, i: nat)
    requires i < |tab|
  {
    forall p :: 1 <= p < |tab| && Ahead(tab, last, p) < Ahead(tab, last, i) ==> tab[p] != "" && p != last
  }

  /** Slot `h` is the first free one in scan order; `wraps` steps lead to it. */
  ghost predicate TakenInPlace(tab: seq<string>, last: nat, h: nat, wraps: nat) {
    && 1 <= h < |tab| && h != last && tab[h] == ""
    && PassedBefore(tab, last, h)
    && wraps == 1 + Ahead(tab, last, h)
  }

  /** The scan comes to `last` first; then `h` is the first free slot above `last` in the doubled table. */
  ghost predicate TakenAfterGrowth(tab: seq<string>, last: nat, h: nat, wraps: nat) {
    && 1 <= last < |tab| && PassedBefore(tab, last, last)
    && last < h <= |tab| && (h < |tab| ==> tab[h] == "")
    && (forall p :: last < p < h ==> tab[p] != "")
    && wraps == 1 + Ahead(tab, last, last) + (h - last)
  }

  /** The effect of a call that stores `s`: new table, handle and cost. */
  ghost predicate Allocated(tab: seq<string>, last: nat, s: string, tab': seq<string>, h: nat, wraps: nat, copied: nat) {
    || (TakenInPlace(tab, last, h, wraps) && copied == 0 && tab' == tab[h := s])
    || (TakenAfterGrowth(tab, last, h, wraps) && copied == |tab| && tab' == (tab + Cleared(|tab|))[h := s])
  }

  // ---------- the loop ----------

  /** What every iteration keeps: the scan has passed only taken slots. */
  ghost predicate Scanning(tab: seq<string>, last: nat, sc: Scan)
    requires |tab| > 0
  {
    sc.Valid() &&
    if sc.copied == 0 then
      && sc.tab == tab && sc.wraps == 1 + Ahead(tab, last, sc.next)
      && PassedBefore(tab, last, sc.next)
    else
      && sc.tab == tab + Cleared(|tab|) && sc.copied == |tab|
      && 1 <= last < |tab| && PassedBefore(tab, last, last)
      && last < sc.next <= |tab| && (forall p :: last < p < sc.next ==> tab[p] != "")
      && sc.wraps == 1 + Ahead(tab, last, last) + (sc.next - last)
  }

  /** What is left to scan. */
  function Remaining(tab: seq<string>, last: nat, sc: Scan): int
    requires |tab| > 0
  {
    if sc.copied == 0 && sc.next < |tab| then 2 * |tab| + 1 - Ahead(tab, last, sc.next) else |tab| - sc.next
  }

  lemma EnterScanning(tab: seq<string>, last: nat)
    requires |tab| > 0
    ensures Scanning(tab, last, Enter(tab, last))
  {
  }

  /** A scan that has gone once around without meeting a stop has met every slot. */
  lemma AllPassed(tab: seq<string>, last: nat, i: nat, q: int)
    requires i < |tab| && Ahead(tab, last, i) == |tab| - 1 && PassedBefore(tab, last, i) && !Stops(tab, last, i)
    ensures !Stops(tab, last, q)
  {
    if 1 <= q < |tab| && q != i {
      assert Ahead(tab, last, q) < Ahead(tab, last, i);
    }
  }

  lemma AheadNext(tab: seq<string>, last: nat, i: nat)
    requires i < |tab| && Ahead(tab, last, i) < |tab| - 1
    ensures var j := if i + 1 == |tab| then 0 else i + 1;
            Ahead(tab, last, j) == Ahead(tab, last, i) + 1
    ensures forall p :: 0 <= p < |tab| && Ahead(tab, last, p) == Ahead(tab, last, i) ==> p == i
  {
  }

  lemma StepInTable(tab: seq<string>, last: nat, sc: Scan)
    requires |tab| > 0 && CanReturn(tab, last) && sc.copied == 0
    requires Scanning(tab, last, sc) && !Stops(tab, last, sc.next)
    ensures Scanning(tab, last, NextWrap(sc))
    ensures 0 <= Remaining(tab, last, NextWrap(sc)) < Remaining(tab, last, sc)
  {
    if Ahead(tab, last, sc.next) == |tab| - 1 {
      var q :| Stops(tab, last, q);
      AllPassed(tab, last, sc.next, q);
    }
    AheadNext(tab, last, sc.next);
  }

  /** If a call can return, an iteration that does not break makes progress. */
  lemma BodyScanning(tab: seq<string>, last: nat, sc: Scan)
    requires |tab| > 0 && CanReturn(tab, last)
    requires Scanning(tab, last, sc) && !Exits(sc, last)
    ensures Scanning(tab, last, Body(sc, last))
    ensures 0 <= Remaining(tab, last, Body(sc, last)) < Remaining(tab, last, sc)
  {
    if sc.copied == 0 && (sc.next == 0 || sc.next != last) {
      StepInTable(tab, last, sc);
    }
  }

  /** At the break the call has done what `Allocated` says. */
  lemma ExitAllocated(tab: seq<string>, last: nat, s: string, sc: Scan)
    requires |tab| > 0 && Scanning(tab, last, sc) && Exits(sc, last)
    ensures Allocated(tab, last, s, sc.tab[sc.next := s], sc.next, sc.wraps, sc.copied)
  {
  }

  // ---------- when the loop ends ----------

  lemma {:induction false} LoopEnds(tab: seq<string>, last: nat, n: nat)
    requires |tab| > 0 && CanReturn(tab, last)
    requires Scanning(tab, last, Iterate(Enter(tab, last), last, n))
    ensures Halts(tab, last)
    decreases Remaining(tab, last, Iterate(Enter(tab, last), last, n))
  {
    var sc := Iterate(Enter(tab, last), last, n);
    if !Exits(sc, last) {
      BodyScanning(tab, last, sc);
      assert Iterate(Enter(tab, last), last, n + 1) == Body(sc, last);
      LoopEnds(tab, last, n + 1);
    }
  }

  lemma {:induction false} LoopForever(tab: seq<string>, last: nat, n: nat)
    requires |tab| > 0 && !CanReturn(tab, last)
    ensures Iterate(Enter(tab, last), last, n).tab == tab
    ensures !Exits(Iterate(Enter(tab, last), last, n), last)
  {
    var sc := Iterate(Enter(tab, last), last, n);
    if n > 0 {
      LoopForever(tab, last, n - 1);
      var before := Iterate(Enter(tab, last), last, n - 1);
      assert sc == Body(before, last) && !Stops(tab, last, before.next);
    }
    assert !Stops(tab, last, sc.next);
  }

  /** The call returns iff some slot in 1..size-1 is free or `last` is one of them. */
  lemma HaltsIff(tab: seq<string>, last: nat)
    requires |tab| > 0
    ensures Halts(tab, last) <==> CanReturn(tab, last)
    ensures Halts(tab, last) <==> 1 <= last < |tab| || exists i :: 1 <= i < |tab| && tab[i] == ""
  {
    if i :| 1 <= i < |tab| && tab[i] == "" {
      assert Stops(tab, last, i);
    }
    assert 1 <= last < |tab| ==> Stops(tab, last, last);
    if CanReturn(tab, last) {
      EnterScanning(tab, last);
      assert Iterate(Enter(tab, last), last, 0) == Enter(tab, last);
      LoopEnds(tab, last, 0);
    } else {
      forall n: nat ensures !Exits(Iterate(Enter(tab, last), last, n), last) {
        LoopForever(tab, last, n);
      }
    }
  }

  // ---------- soundness of one call ----------

  /** The scan starts two slots above `last`, so it comes to `last` last but one. */
  lemma LastAhead(tab: seq<string>, last: nat)
    requires 1 <= last < |tab|
    ensures Origin(tab, last) == if last + 2 < |tab| then last + 2 else last + 2 - |tab|
    ensures Ahead(tab, last, last) == |tab| - 2
    ensures forall i :: 1 <= i < |tab| && i != last && i != last + 1 ==> Ahead(tab, last, i) < |tab| - 2
    ensures last + 1 < |tab| ==> Ahead(tab, last, last + 1) == |tab| - 1
  {
    if last + 1 < |tab| {
      assert (last + 1) % |tab| == last + 1;
    }
  }

  /** A call doubles the table at most once, takes a non-zero slot that was free or is new,
      and changes no other. */
  lemma AllocatedSound(tab: seq<string>, last: nat, s: string, tab': seq<string>, h: nat, wraps: nat, copied: nat)
    requires Allocated(tab, last, s, tab', h, wraps, copied)
    ensures |tab'| == (if copied == 0 then |tab| else 2 * |tab|) && copied <= |tab|
    ensures 0 < h < |tab'| && tab'[h] == s
    ensures h < |tab| ==> tab[h] == ""
    ensures forall i :: 0 <= i < |tab| && i != h ==> tab'[i] == tab[i]
    ensures forall i :: |tab| <= i < |tab'| && i != h ==> tab'[i] == ""
    ensures wraps <= 2 * |tab|
  {
    if copied > 0 {
      LastAhead(tab, last);
    }
  }

  /** A call grows the table exactly when all slots are taken but 0, `last` and the one after
      `last`, which the scan never looks at before it grows. */
  lemma GrowsIff(tab: seq<string>, last: nat, s: string, tab': seq<string>, h: nat, wraps: nat, copied: nat)
    requires Allocated(tab, last, s, tab', h, wraps, copied)
    ensures copied > 0 <==> 1 <= last < |tab| && forall i :: 1 <= i < |tab| && i != last && i != last + 1 ==> tab[i] != ""
  {
    if 1 <= last < |tab| {
      LastAhead(tab, last);
    }
  }

  /** `Allocated` leaves no choice. */
  lemma AllocatedUnique(tab: seq<string>, last: nat, s: string,
                        t1: seq<string>, h1: nat, w1: nat, c1: nat, t2: seq<string>, h2: nat, w2: nat, c2: nat)
    requires Allocated(tab, last, s, t1, h1, w1, c1) && Allocated(tab, last, s, t2, h2, w2, c2)
    ensures t1 == t2 && h1 == h2 && w1 == w2 && c1 == c2
  {
    AllocatedSound(tab, last, s, t1, h1, w1, c1);
    AllocatedSound(tab, last, s, t2, h2, w2, c2);
    if c1 == 0 {
      assert Ahead(tab, last, h1) == Ahead(tab, last, h2);
    }
  }

  // ---------- the order of the scan ----------

  /** The slot that the scan looks at after `k` steps: it starts two above `last`. */
  function Slot(tab: seq<string>, last: nat, k: nat): (q: nat)
    requires |tab| > 0
    ensures q < |tab|
  {
    (last + 2 + k) % |tab|
  }

  /** The first `k` slots are no use: slot 0, or taken and not `last`. */
  ghost predicate Skipped(tab: seq<string>, last: nat, k: nat)
    requires |tab| > 0
  {
    forall i {:trigger Slot(tab, last, i)} :: 0 <= i < k ==> Slot(tab, last, i) == 0 || (tab[Slot(tab, last, i)] != "" && Slot(tab, last, i) != last)
  }

  /** After `k` steps the scan finds a free slot and takes it. */
  ghost predicate FindsFree(tab: seq<string>, last: nat, s: string, tab': seq<string>, h: nat, wraps: nat, copied: nat, k: nat) {
    && k < |tab| && Skipped(tab, last, k)
    && h == Slot(tab, last, k) && h != 0 && h != last && tab[h] == ""
    && tab' == tab[h := s] && wraps == k + 1 && copied == 0
  }

  /** After `k` steps it is back at `last`: the table doubles, and the first free slot above `last` is taken. */
  ghost predicate ComesRound(tab: seq<string>, last: nat, s: string, tab': seq<string>, h: nat, wraps: nat, copied: nat, k: nat) {
    && k < |tab| && Skipped(tab, last, k)
    && Slot(tab, last, k) == last && last != 0
    && last < h <= |tab| && (h < |tab| ==> tab[h] == "") && (forall p :: last < p < h ==> tab[p] != "")
    && tab' == (tab + Cleared(|tab|))[h := s] && wraps == k + 1 + (h - last) && copied == |tab|
  }

  /** What a call does, told along the scan. */
  ghost predicate ScanTakes(tab: seq<string>, last: nat, s: string, tab': seq<string>, h: nat, wraps: nat, copied: nat) {
    exists k :: FindsFree(tab, last, s, tab', h, wraps, copied, k) || ComesRound(tab, last, s, tab', h, wraps, copied, k)
  }

  lemma Product(x: int, y: int, n: nat)
    requires x <= y
    ensures x * n <= y * n
  {
  }

  lemma UniqueRemainder(x: nat, n: nat, q: nat, r: nat)
    requires x == q * n + r && r < n
    ensures x % n == r
  {
    var p, t := x / n, x % n;
    assert x == p * n + t;
    assert (p + 1) * n == p * n + n && (q + 1) * n == q * n + n;
    if p < q {
      Product(p + 1, q, n);
    } else if p > q {
      Product(q + 1, p, n);
    }
  }

  lemma OneStepOn(x: nat, n: nat)
    requires n > 0
    ensures (if x % n + 1 == n then 0 else x % n + 1) == (x + 1) % n
  {
    var q, r := x / n, x % n;
    assert x == q * n + r;
    if r + 1 == n {
      assert (q + 1) * n == q * n + n;
      UniqueRemainder(x + 1, n, q + 1, 0);
    } else {
      UniqueRemainder(x + 1, n, q, r + 1);
    }
  }

  /** The slot `k` steps from the first. */
  lemma Ring(o: nat, n: nat, k: nat)
    requires o < n && k < n
    ensures (o + k) % n == if o + k < n then o + k else o + k - n
  {
  }

  lemma SlotAhead(tab: seq<string>, last: nat, k: nat)
    requires k < |tab|
    ensures Origin(tab, last) == Slot(tab, last, 0)
    ensures Ahead(tab, last, Slot(tab, last, k)) == k
  {
    var n, o := |tab|, Origin(tab, last);
    OneStepOn(last + 1, n);
    ModAdd(last + 2, k, n);
    Ring(o, n, k);
  }

  lemma ModAdd(x: nat, k: nat, n: nat)
    requires n > 0
    ensures (x + k) % n == (x % n + k) % n
  {
    var q, y := x / n, x % n + k;
    var p, r := y / n, y % n;
    assert x == q * n + x % n && y == p * n + r;
    assert (q + p) * n == q * n + p * n;
    UniqueRemainder(x + k, n, q + p, r);
  }

  /** Every slot is met once. */
  lemma SlotOf(tab: seq<string>, last: nat, i: nat)
    requires i < |tab|
    ensures Slot(tab, last, Ahead(tab, last, i)) == i
  {
    var n, o, d := |tab|, Origin(tab, last), Ahead(tab, last, i);
    SlotAhead(tab, last, 0);
    ModAdd(last + 2, d, n);
    Ring(o, n, d);
  }

  lemma SkippedIff(tab: seq<string>, last: nat, i: nat)
    requires i < |tab|
    ensures Skipped(tab, last, Ahead(tab, last, i)) <==> PassedBefore(tab, last, i)
  {
    var d := Ahead(tab, last, i);
    if Skipped(tab, last, d) {
      forall p | 1 <= p < |tab| && Ahead(tab, last, p) < d ensures tab[p] != "" && p != last {
        SlotOf(tab, last, p);
        assert Slot(tab, last, Ahead(tab, last, p)) == p;
      }
    }
    if PassedBefore(tab, last, i) {
      forall k {:trigger Slot(tab, last, k)} | 0 <= k < d
        ensures Slot(tab, last, k) == 0 || (tab[Slot(tab, last, k)] != "" && Slot(tab, last, k) != last)
      {
        SlotAhead(tab, last, k);
      }
    }
  }

  lemma FoundAlong(tab: seq<string>, last: nat, s: string, tab': seq<string>, h: nat, wraps: nat, copied: nat)
    requires Allocated(tab, last, s, tab', h, wraps, copied)
    ensures ScanTakes(tab, last, s, tab', h, wraps, copied)
  {
    var i := if copied == 0 then h else last;
    SkippedIff(tab, last, i);
    SlotOf(tab, last, i);
    if copied == 0 {
      assert FindsFree(tab, last, s, tab', h, wraps, copied, Ahead(tab, last, h));
    } else {
      assert ComesRound(tab, last, s, tab', h, wraps, copied, Ahead(tab, last, last));
    }
  }

  /** `Allocated` is what happens along the scan, wherever `last` is. */
  lemma AllocatedIff(tab: seq<string>, last: nat, s: string, tab': seq<string>, h: nat, wraps: nat, copied: nat)
    ensures Allocated(tab, last, s, tab', h, wraps, copied) <==> ScanTakes(tab, last, s, tab', h, wraps, copied)
  {
    if Allocated(tab, last, s, tab', h, wraps, copied) {
      FoundAlong(tab, last, s, tab', h, wraps, copied);
    }
    if k :| FindsFree(tab, last, s, tab', h, wraps, copied, k) || ComesRound(tab, last, s, tab', h, wraps, copied, k) {
      SlotAhead(tab, last, k);
      SkippedIff(tab, last, Slot(tab, last, k));
    }
  }

  /** The slot two above `last`, counted round the table, is taken if it can be. */
  lemma TwoAboveLast(tab: seq<string>, last: nat, s: string, tab': seq<string>, h: nat, wraps: nat, copied: nat)
    requires |tab| > 0 && Allocated(tab, last, s, tab', h, wraps, copied)
    requires var q := (last + 2) % |tab|; q != 0 && q != last && tab[q] == ""
    ensures h == (last + 2) % |tab| && copied == 0 && wraps == 1
  {
    var q := (last + 2) % |tab|;
    assert Slot(tab, last, 0) == q;
    SlotAhead(tab, last, 0);
    assert TakenInPlace(tab, last, q, 1);
    AllocatedUnique(tab, last, s, tab', h, wraps, copied, tab[q := s], q, 1, 0);
  }
}

/**
  A whole run of `AllocString` calls on one fresh table (go/hhash/hhash.go): which handles
  come out in which order, when the table grows, and what the calls cost together.
 */
module HhashPattern {
  import opened Hhash

  // ---------- runs ----------

  /** A table between two calls, with the total cost so far. */
  datatype Table = Table(tab: seq<string>, last: nat, wraps: int, copied: int)

  ghost predicate Call(t: Table, s: string, t': Table) {
    && t'.wraps >= t.wraps && t'.copied >= t.copied
    && Allocated(t.tab, t.last, s, t'.tab, t'.last, t'.wraps - t.wraps, t'.copied - t.copied)
  }

  /** A run from `Init` with the package variable still 0, storing the strings in turn. */
  ghost predicate FreshRun(ts: seq<Table>, ss: seq<string>) {
    && |ts| == |ss| + 1
    && ts[0] == Table(Cleared(4), 0, 0, 0)
    && (forall k :: 0 <= k < |ss| ==> ss[k] != "" && Call(ts[k], ss[k], ts[k + 1]))
  }

  // ---------- the pattern ----------

  /** Half the largest power of two that is at most `k`. */
  function Half(k: nat): (h: nat)
    requires k >= 4
    ensures 2 * h <= k < 4 * h && h >= 2
  {
    if k < 8 then 2 else 2 * Half(k / 2)
  }

  predicate PowerOfTwo(n: nat) {
    n == 1 || (n > 1 && n % 2 == 0 && PowerOfTwo(n / 2))
  }

  lemma {:induction false} HalfIsPower(k: nat)
    requires k >= 4
    ensures PowerOfTwo(Half(k))
  {
    if k < 8 {
      assert PowerOfTwo(1);
    } else {
      HalfIsPower(k / 2);
    }
  }

  lemma {:induction false} HalfUnique(k: nat, h: nat)
    requires k >= 4 && PowerOfTwo(h) && 2 * h <= k < 4 * h
    ensures Half(k) == h
  {
    if k >= 8 {
      HalfUnique(k / 2, h / 2);
    }
  }

  /** The `k`th handle of a fresh run. */
  function Handle(k: nat): nat
    requires k >= 1
  {
    if k == 1 then 2
    else if k == 2 then 1
    else if k == 3 then 3
    else
      var h := Half(k);
      var n := 2 * h;
      var j := k - n;
      if j < h then n + 2 * j else n + 2 * (j - h) + 1
  }

  /** Which slots are taken after 2h + j calls. */
  predicate Taken(h: nat, j: nat, i: nat) {
    i < 2 * h || (i % 2 == 0 && i <= 2 * h + 2 * j) || (i % 2 == 1 && i <= 2 * j + 1)
  }

  ghost predicate TakenExactly(tab: seq<string>, h: nat, j: nat) {
    forall i :: 1 <= i < |tab| ==> (tab[i] != "" <==> Taken(h, j, i))
  }

  /** The table after 2h + j calls, in the round that takes it from half full to full. */
  ghost predicate InRound(h: nat, j: nat, tab: seq<string>, last: nat) {
    && h >= 2 && j < 2 * h
    && |tab| == 4 * h
    && last == (if j < h then 2 * h + 2 * j else 2 * j + 1)
    && TakenExactly(tab, h, j)
  }

  /** What the next call costs. */
  function NextWraps(h: nat, j: nat): nat {
    if j + 1 == h then 2 * h + 2 else if j + 1 == 2 * h then 4 * h else 1
  }

  /** Every second slot is taken going up, ... */
  lemma NextEven(h: nat, j: nat, tab: seq<string>, last: nat)
    requires InRound(h, j, tab, last) && j + 1 < h
    ensures TakenInPlace(tab, last, last + 2, 1)
  {
    LastAhead(tab, last);
  }

  /** ... then the scan goes around once to the first slot left out, ... */
  lemma TurnAround(h: nat, j: nat, tab: seq<string>, last: nat)
    requires InRound(h, j, tab, last) && j + 1 == h
    ensures TakenInPlace(tab, last, 2 * h + 1, 2 * h + 2)
  {
    LastAhead(tab, last);
  }

  /** ... the others follow, ... */
  lemma NextOdd(h: nat, j: nat, tab: seq<string>, last: nat)
    requires InRound(h, j, tab, last) && h <= j && j + 1 < 2 * h
    ensures TakenInPlace(tab, last, last + 2, 1)
  {
    LastAhead(tab, last);
  }

  /** ... and when the last slot is taken, the scan finds all taken and the table doubles. */
  lemma FullTable(h: nat, j: nat, tab: seq<string>, last: nat)
    requires InRound(h, j, tab, last) && j + 1 == 2 * h
    ensures TakenAfterGrowth(tab, last, 4 * h, 4 * h)
    ensures forall i :: 1 <= i < |tab| ==> tab[i] != ""
  {
    LastAhead(tab, last);
  }

  lemma StillFree(h: nat, j: nat, tab: seq<string>, last: nat)
    requires InRound(h, j, tab, last) && j + 1 < 2 * h
    ensures exists i :: 1 <= i < |tab| && tab[i] == ""
  {
    assert !Taken(h, j, 4 * h - 1);
    assert tab[4 * h - 1] == "";
  }

  /** One call moves the pattern on by one; growth happens exactly when slots 1..size-1 are all taken. */
  lemma RoundStep(h: nat, j: nat, tab: seq<string>, last: nat, s: string, tab': seq<string>, g: nat, wraps: nat, copied: nat)
    requires InRound(h, j, tab, last) && s != "" && Allocated(tab, last, s, tab', g, wraps, copied)
    ensures wraps == NextWraps(h, j)
    ensures copied == if j + 1 < 2 * h then 0 else 4 * h
    ensures if j + 1 < 2 * h then InRound(h, j + 1, tab', g) else InRound(2 * h, 0, tab', g)
    ensures copied > 0 <==> forall i :: 1 <= i < |tab| ==> tab[i] != ""
  {
    if j + 1 < 2 * h {
      StillFree(h, j, tab, last);
      var e := if j + 1 < h then last + 2 else if j + 1 == h then 2 * h + 1 else last + 2;
      if j + 1 < h {
        NextEven(h, j, tab, last);
      } else if j + 1 == h {
        TurnAround(h, j, tab, last);
      } else {
        NextOdd(h, j, tab, last);
      }
      AllocatedUnique(tab, last, s, tab', g, wraps, copied, tab[e := s], e, NextWraps(h, j), 0);
      TakeNext(h, j, tab, e, s);
    } else {
      FullTable(h, j, tab, last);
      var bigger := tab + Cleared(|tab|);
      AllocatedUnique(tab, last, s, tab', g, wraps, copied, bigger[4 * h := s], 4 * h, 4 * h, 4 * h);
      assert TakenExactly(tab', 2 * h, 0);
    }
  }

  /** The next call takes slot `e`, and no other. */
  lemma TakenNext(h: nat, j: nat, e: nat, i: nat)
    requires h >= 2 && j + 1 < 2 * h && e == if j + 1 < h then 2 * h + 2 * (j + 1) else 2 * (j + 1) + 1
    requires i < 4 * h
    ensures Taken(h, j + 1, i) <==> Taken(h, j, i) || i == e
  {
    assert e % 2 == if j + 1 < h then 0 else 1;
  }

  lemma TakeNext(h: nat, j: nat, tab: seq<string>, e: nat, s: string)
    requires h >= 2 && j + 1 < 2 * h && |tab| == 4 * h && TakenExactly(tab, h, j) && s != ""
    requires e == if j + 1 < h then 2 * h + 2 * (j + 1) else 2 * (j + 1) + 1
    ensures e < |tab| && TakenExactly(tab[e := s], h, j + 1)
  {
    var t := tab[e := s];
    forall i | 1 <= i < |t| ensures t[i] != "" <==> Taken(h, j + 1, i) {
      TakenNext(h, j, e, i);
      assert i != e ==> t[i] == tab[i];
    }
  }

  // ---------- the first four calls ----------

  ghost predicate Early(k: nat, t: Table) {
    && k < 4 && |t.tab| == 4 && t.copied == 0
    && match k
       case 0 => t.last == 0 && t.wraps == 0 && t.tab[1] == t.tab[2] == t.tab[3] == ""
       case 1 => t.last == 2 && t.wraps == 1 && t.tab[2] != "" && t.tab[1] == t.tab[3] == ""
       case 2 => t.last == 1 && t.wraps == 3 && t.tab[1] != "" && t.tab[2] != "" && t.tab[3] == ""
       case _ => t.last == 3 && t.wraps == 4 && t.tab[1] != "" && t.tab[2] != "" && t.tab[3] != ""
  }

  /** Handle 2, then 1, then 3; the fourth call finds the table full. */
  lemma EarlyChoice(k: nat, t: Table)
    requires Early(k, t)
    ensures k == 0 ==> TakenInPlace(t.tab, t.last, 2, 1)
    ensures k == 1 ==> TakenInPlace(t.tab, t.last, 1, 2)
    ensures k == 2 ==> TakenInPlace(t.tab, t.last, 3, 1)
    ensures k == 3 ==> TakenAfterGrowth(t.tab, t.last, 4, 4)
  {
    assert Origin(t.tab, t.last) == match k case 0 => 2 case 1 => 0 case 2 => 3 case _ => 1;
  }

  lemma EarlyStep(k: nat, t: Table, s: string, t': Table)
    requires Early(k, t) && s != "" && Call(t, s, t')
    ensures k < 3 ==> Early(k + 1, t')
    ensures k == 3 ==> InRound(2, 0, t'.tab, t'.last) && t'.wraps == 8 && t'.copied == 4
  {
    EarlyChoice(k, t);
    var w, c := t'.wraps - t.wraps, t'.copied - t.copied;
    if k < 3 {
      var e := [2, 1, 3][k];
      AllocatedUnique(t.tab, t.last, s, t'.tab, t'.last, w, c, t.tab[e := s], e, if k == 1 then 2 else 1, 0);
    } else {
      var bigger := t.tab + Cleared(4);
      AllocatedUnique(t.tab, t.last, s, t'.tab, t'.last, w, c, bigger[4 := s], 4, 4, 4);
      assert TakenExactly(t'.tab, 2, 0);
    }
  }

  // ---------- the whole run ----------

  /** Total `next_wrap` calls after 2h + j allocations. */
  function TotalWraps(h: nat, j: nat): int {
    if j < h then 8 * h - 8 + j else 10 * h - 7 + j
  }

  ghost predicate AfterRound(h: nat, j: nat, t: Table) {
    InRound(h, j, t.tab, t.last) && t.wraps == TotalWraps(h, j) && t.copied == 4 * h - 4
  }

  ghost predicate After(k: nat, t: Table) {
    if k < 4 then Early(k, t) else AfterRound(Half(k), k - 2 * Half(k), t)
  }

  lemma HalfNext(k: nat)
    requires k >= 4
    ensures Half(k + 1) == if k + 1 < 4 * Half(k) then Half(k) else 2 * Half(k)
  {
    var h := Half(k);
    HalfIsPower(k);
    if k + 1 < 4 * h {
      HalfUnique(k + 1, h);
    } else {
      assert (2 * h) / 2 == h;
      assert PowerOfTwo(2 * h);
      HalfUnique(k + 1, 2 * h);
    }
  }

  lemma LaterStep(h: nat, j: nat, t: Table, s: string, t': Table)
    requires AfterRound(h, j, t) && s != "" && Call(t, s, t')
    ensures if j + 1 < 2 * h then AfterRound(h, j + 1, t') else AfterRound(2 * h, 0, t')
  {
    RoundStep(h, j, t.tab, t.last, s, t'.tab, t'.last, t'.wraps - t.wraps, t'.copied - t.copied);
  }

  lemma AfterStep(k: nat, t: Table, s: string, t': Table)
    requires After(k, t) && s != "" && Call(t, s, t')
    ensures After(k + 1, t')
  {
    if k < 4 {
      EarlyStep(k, t, s, t');
    } else {
      LaterStep(Half(k), k - 2 * Half(k), t, s, t');
      HalfNext(k);
    }
  }

  lemma {:induction false} RunAfter(ts: seq<Table>, ss: seq<string>, k: nat)
    requires FreshRun(ts, ss) && k <= |ss|
    ensures After(k, ts[k])
  {
    if k > 0 {
      RunAfter(ts, ss, k - 1);
      AfterStep(k - 1, ts[k - 1], ss[k - 1], ts[k]);
    }
  }

  lemma HandleAfter(k: nat, t: Table)
    requires k >= 1 && After(k, t)
    ensures t.last == Handle(k)
    ensures |t.tab| == if k < 4 then 4 else 4 * Half(k)
  {
  }

  lemma CostAfter(k: nat, t: Table)
    requires After(k, t)
    ensures t.wraps <= 4 * k && t.copied <= 2 * k && (k > 0 ==> t.copied < 2 * k)
  {
  }

  /** In a fresh run the `k`th call returns Handle(k). */
  lemma AllocationPattern(ts: seq<Table>, ss: seq<string>, k: nat)
    requires FreshRun(ts, ss) && 1 <= k <= |ss|
    ensures ts[k].last == Handle(k)
    ensures |ts[k].tab| == if k < 4 then 4 else 4 * Half(k)
  {
    RunAfter(ts, ss, k);
    HandleAfter(k, ts[k]);
  }

  /** In a fresh run a call grows the table exactly when slots 1..size-1 are all taken. */
  lemma GrowsOnlyWhenFull(ts: seq<Table>, ss: seq<string>, k: nat)
    requires FreshRun(ts, ss) && k < |ss|
    ensures ts[k + 1].copied > ts[k].copied <==> forall i :: 1 <= i < |ts[k].tab| ==> ts[k].tab[i] != ""
  {
    RunAfter(ts, ss, k);
    var t, t' := ts[k], ts[k + 1];
    if k < 4 {
      EarlyStep(k, t, ss[k], t');
    } else {
      var h := Half(k);
      RoundStep(h, k - 2 * h, t.tab, t.last, ss[k], t'.tab, t'.last, t'.wraps - t.wraps, t'.copied - t.copied);
    }
  }

  /** A fresh run of `k` calls makes at most 4k `next_wrap` calls and copies fewer than 2k cells. */
  lemma AmortisedCost(ts: seq<Table>, ss: seq<string>, k: nat)
    requires FreshRun(ts, ss) && 1 <= k <= |ss|
    ensures ts[k].wraps <= 4 * k && ts[k].copied < 2 * k
  {
    RunAfter(ts, ss, k);
    CostAfter(k, ts[k]);
  }
}

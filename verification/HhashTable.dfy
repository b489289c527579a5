/**
  The Go object: a slice that `AllocString` writes in place and replaces when it doubles, and
  the package variable `last` that all tables share.
 */
module HhashTable {
  import opened Hhash
  import opened HhashPattern

  /** The variables of the package. */
  class Package {
    var last: nat

    constructor ()
      ensures last == 0
    {
      last := 0;
    }
  }

  class Handlemap {
    var tab: array<string>

    /** The zero value: no table yet. */
    constructor ()
      ensures fresh(tab) && tab.Length == 0
    {
      tab := new string[0];
    }

    method Init()
      modifies this
      ensures fresh(tab) && tab[..] == Cleared(4)
    {
      tab := new string[4](_ => "");
    }

    /** Doubles the table: a new slice with the old cells copied to its front. */
    method Enlarge()
      modifies this
      ensures fresh(tab) && tab[..] == old(tab[..]) + Cleared(old(tab.Length))
      ensures old(tab)[..] == old(tab[..])
    {
      var newmap := new string[2 * tab.Length](_ => "");
      for i := 0 to tab.Length
        invariant newmap.Length == 2 * tab.Length && fresh(newmap)
        invariant newmap[..i] == tab[..i]
        invariant forall k :: i <= k < newmap.Length ==> newmap[k] == ""
        invariant tab == old(tab) && tab[..] == old(tab[..])
      {
        newmap[i] := tab[i];
      }
      assert newmap[..] == tab[..] + Cleared(tab.Length);
      tab := newmap;
    }

    /**
      Without a table the program divides by zero, and if no slot can end the scan it loops
      forever (`Hhash.HaltsIff`); otherwise the call has the effect `Allocated`, which along the
      scan is `ScanTakes`.
     */
    method AllocString(pkg: Package, s: string) returns (val: nat, ghost wraps: nat, ghost copied: nat)
      requires tab.Length > 0 && CanReturn(tab[..], pkg.last)
      modifies this, tab, pkg
      ensures tab.Length > 0 && Allocated(old(tab[..]), old(pkg.last), s, tab[..], val, wraps, copied)
      ensures ScanTakes(old(tab[..]), old(pkg.last), s, tab[..], val, wraps, copied)
      ensures pkg.last == val
      ensures if copied == 0 then tab == old(tab) else fresh(tab) && old(tab)[..] == old(tab[..])
    {
      ghost var before := tab[..];
      var last := pkg.last;
      var size := tab.Length;
      var next := (last + 1) % size;
      ghost var sc := Enter(before, last);
      next := if next + 1 == size then 0 else next + 1;
      EnterScanning(before, last);
      while true
        invariant sc.tab == tab[..] && sc.next == next && size == tab.Length
        invariant Scanning(before, last, sc)
        invariant if sc.copied == 0 then tab == old(tab) else fresh(tab) && old(tab)[..] == before
        invariant pkg.last == last
        decreases Remaining(before, last, sc)
      {
        if !Exits(sc, last) {
          BodyScanning(before, last, sc);
        }
        if next == 0 {
          next := if next + 1 == size then 0 else next + 1;
          sc := Body(sc, last);
          continue;
        }
        if next == last {
          Enlarge();
          size := tab.Length;
          next := if next + 1 == size then 0 else next + 1;
          sc := Body(sc, last);
          continue;
        }
        if tab[next] != "" {
          next := if next + 1 == size then 0 else next + 1;
          sc := Body(sc, last);
        } else {
          break;
        }
      }
      ExitAllocated(before, last, s, sc);
      tab[next] := s;
      assert tab[..] == sc.tab[next := s];
      pkg.last := next;
      val, wraps, copied := next, sc.wraps, sc.copied;
      FoundAlong(before, last, s, tab[..], val, wraps, copied);
    }
  }

  lemma CanReturnAfter(k: nat, t: Table)
    requires After(k, t)
    ensures CanReturn(t.tab, t.last) && |t.tab| > 0
  {
    if k == 0 {
      assert Stops(t.tab, t.last, 1);
    } else {
      assert Stops(t.tab, t.last, t.last);
    }
  }

  /** The contents of the slots handed out so far. */
  ghost predicate Stores(tab: seq<string>, handles: seq<nat>, ss: seq<string>) {
    && |handles| <= |ss|
    && forall i {:trigger handles[i]} :: 0 <= i < |handles| ==> handles[i] < |tab| && tab[handles[i]] == ss[i] && handles[i] == Handle(i + 1)
  }

  lemma StoresMore(t: Table, handles: seq<nat>, ss: seq<string>, t': Table)
    requires |handles| < |ss| && Stores(t.tab, handles, ss) && Call(t, ss[|handles|], t')
    requires forall i :: 0 <= i < |ss| ==> ss[i] != ""
    requires t'.last == Handle(|handles| + 1)
    ensures Stores(t'.tab, handles + [t'.last], ss)
  {
    AllocatedSound(t.tab, t.last, ss[|handles|], t'.tab, t'.last, t'.wraps - t.wraps, t'.copied - t.copied);
  }

  /** The state of a fresh run after `k` calls. */
  ghost predicate Filled(k: nat, t: Table, handles: seq<nat>, ss: seq<string>) {
    After(k, t) && |handles| == k && Stores(t.tab, handles, ss)
  }

  lemma OneMore(k: nat, t: Table, handles: seq<nat>, ss: seq<string>, t': Table)
    requires k < |ss| && Filled(k, t, handles, ss) && Call(t, ss[k], t')
    requires forall i :: 0 <= i < |ss| ==> ss[i] != ""
    ensures Filled(k + 1, t', handles + [t'.last], ss)
  {
    AfterStep(k, t, ss[k], t');
    HandleAfter(k + 1, t');
    StoresMore(t, handles, ss, t');
  }

  /** Allocation of all of `ss` on one fresh table: every call returns, the handles follow the
      pattern, each keeps its string, and the cost is linear. */
  method AllocAll(ss: seq<string>) returns (hm: Handlemap, handles: seq<nat>, ghost wraps: int, ghost copied: int)
    requires forall i :: 0 <= i < |ss| ==> ss[i] != ""
    ensures |handles| == |ss| && Stores(hm.tab[..], handles, ss)
    ensures wraps <= 4 * |ss| && copied <= 2 * |ss|
  {
    var pkg := new Package();
    hm := new Handlemap();
    hm.Init();
    handles := [];
    ghost var t := Table(hm.tab[..], pkg.last, 0, 0);
    for k := 0 to |ss|
      invariant t.tab == hm.tab[..] && t.last == pkg.last && Filled(k, t, handles, ss)
      invariant fresh(hm.tab)
    {
      CanReturnAfter(k, t);
      var val, w, c := hm.AllocString(pkg, ss[k]);
      ghost var t' := Table(hm.tab[..], pkg.last, t.wraps + w, t.copied + c);
      OneMore(k, t, handles, ss, t');
      handles, t := handles + [val], t';
    }
    CostAfter(|ss|, t);
    wraps, copied := t.wraps, t.copied;
  }
}

/**
  Several handle maps sharing the package variable `last` (go/hhash/hhash.go): no handle is
  given out twice, but a call on one map can be made to loop forever by calls on another.
 */
module HhashMaps {
  import opened Hhash

  datatype World = World(maps: seq<seq<string>>, last: nat)

  /** A call of AllocString(s) on map `m` that returned `h`. */
  datatype Issue = Issue(m: nat, s: string, h: nat)

  ghost predicate WorldCall(w: World, c: Issue, w': World) {
    && c.m < |w.maps| == |w'.maps| && |w.maps[c.m]| > 0
    && (exists wraps, copied :: Allocated(w.maps[c.m], w.last, c.s, w'.maps[c.m], c.h, wraps, copied))
    && (forall i :: 0 <= i < |w.maps| && i != c.m ==> w'.maps[i] == w.maps[i])
    && w'.last == c.h
  }

  /** Any interleaving of returning calls with any strings, from any tables. */
  ghost predicate WorldRun(ws: seq<World>, cs: seq<Issue>) {
    && |ws| == |cs| + 1
    && (forall k :: 0 <= k < |cs| ==> WorldCall(ws[k], cs[k], ws[k + 1]))
  }

  /** A slot that is taken is never changed by a call. */
  lemma CallKeeps(w: World, c: Issue, w': World, m: nat, h: nat)
    requires WorldCall(w, c, w') && m < |w.maps| && h < |w.maps[m]| && w.maps[m][h] != ""
    ensures m < |w'.maps| && h < |w'.maps[m]| && w'.maps[m][h] == w.maps[m][h]
    ensures c.m == m ==> c.h != h
  {
    if c.m == m {
      var wraps, copied :| Allocated(w.maps[c.m], w.last, c.s, w'.maps[c.m], c.h, wraps, copied);
      AllocatedSound(w.maps[c.m], w.last, c.s, w'.maps[c.m], c.h, wraps, copied);
    }
  }

  /** A handle given out for a string that is not empty keeps it for the rest of the run. */
  lemma {:induction false} HandleKept(ws: seq<World>, cs: seq<Issue>, k: nat, n: nat)
    requires WorldRun(ws, cs) && k < n <= |cs| && cs[k].s != ""
    ensures cs[k].m < |ws[n].maps| && 0 < cs[k].h < |ws[n].maps[cs[k].m]|
    ensures ws[n].maps[cs[k].m][cs[k].h] == cs[k].s
    decreases n
  {
    var c, w, w' := cs[k], ws[n - 1], ws[n];
    assert WorldCall(ws[n - 1], cs[n - 1], ws[n]);
    if k == n - 1 {
      var wraps, copied :| Allocated(w.maps[c.m], w.last, c.s, w'.maps[c.m], c.h, wraps, copied);
      AllocatedSound(w.maps[c.m], w.last, c.s, w'.maps[c.m], c.h, wraps, copied);
    } else {
      HandleKept(ws, cs, k, n - 1);
      CallKeeps(w, cs[n - 1], w', c.m, c.h);
    }
  }

  /** The map does not give out such a handle again. */
  lemma HandlesDistinct(ws: seq<World>, cs: seq<Issue>, k: nat, l: nat)
    requires WorldRun(ws, cs) && k < l < |cs| && cs[k].m == cs[l].m && cs[k].s != ""
    ensures cs[k].h != cs[l].h
  {
    HandleKept(ws, cs, k, l);
    assert WorldCall(ws[l], cs[l], ws[l + 1]);
    CallKeeps(ws[l], cs[l], ws[l + 1], cs[k].m, cs[k].h);
  }

  // ---------- a call that never returns ----------

  lemma Place(tab: seq<string>, last: nat, s: string, h: nat, w: World, c: Issue, w': World)
    requires c.m < |w.maps| == |w'.maps| && w.maps[c.m] == tab && w.last == last && c.h == h && c.s == s
    requires h < |tab| && TakenInPlace(tab, last, h, 1 + Ahead(tab, last, h))
    requires w'.maps[c.m] == tab[h := s] && w'.last == h
    requires forall i :: 0 <= i < |w.maps| && i != c.m ==> w'.maps[i] == w.maps[i]
    ensures WorldCall(w, c, w')
  {
    assert Allocated(tab, last, s, w'.maps[c.m], h, 1 + Ahead(tab, last, h), 0);
  }

  /** A table of four slots, slots 1 to 3 taken as told. */
  function Small(s: string, one: bool, two: bool, three: bool): (r: seq<string>)
    ensures |r| == 4
  {
    ["", if one then s else "", if two then s else "", if three then s else ""]
  }

  /** The first map doubled, with slots 1 to 4 taken. */
  function Doubled(s: string): seq<string> {
    (Small(s, true, true, true) + Cleared(4))[4 := s]
  }

  /** The second map fills up: handles 2, 1, 3. */
  lemma FillSecond(s: string, a: seq<string>)
    requires s != ""
    ensures WorldCall(World([a, Small(s, false, false, false)], 0), Issue(1, s, 2), World([a, Small(s, false, true, false)], 2))
    ensures WorldCall(World([a, Small(s, false, true, false)], 2), Issue(1, s, 1), World([a, Small(s, true, true, false)], 1))
    ensures WorldCall(World([a, Small(s, true, true, false)], 1), Issue(1, s, 3), World([a, Small(s, true, true, true)], 3))
  {
    var b0, b1, b2, b3 := Small(s, false, false, false), Small(s, false, true, false), Small(s, true, true, false), Small(s, true, true, true);
    assert b1 == b0[2 := s] && b2 == b1[1 := s] && b3 == b2[3 := s];
    Place(b0, 0, s, 2, World([a, b0], 0), Issue(1, s, 2), World([a, b1], 2));
    Place(b1, 2, s, 1, World([a, b1], 2), Issue(1, s, 1), World([a, b2], 1));
    Place(b2, 1, s, 3, World([a, b2], 1), Issue(1, s, 3), World([a, b3], 3));
  }

  /** The first map fills up behind it, handles 1, 3, 2, ... */
  lemma FillFirst(s: string, b: seq<string>)
    requires s != ""
    ensures WorldCall(World([Small(s, false, false, false), b], 3), Issue(0, s, 1), World([Small(s, true, false, false), b], 1))
    ensures WorldCall(World([Small(s, true, false, false), b], 1), Issue(0, s, 3), World([Small(s, true, false, true), b], 3))
    ensures WorldCall(World([Small(s, true, false, true), b], 3), Issue(0, s, 2), World([Small(s, true, true, true), b], 2))
  {
    var a0, a1, a2, a3 := Small(s, false, false, false), Small(s, true, false, false), Small(s, true, false, true), Small(s, true, true, true);
    assert a1 == a0[1 := s] && a2 == a1[3 := s] && a3 == a2[2 := s];
    Place(a0, 3, s, 1, World([a0, b], 3), Issue(0, s, 1), World([a1, b], 1));
    Place(a1, 1, s, 3, World([a1, b], 1), Issue(0, s, 3), World([a2, b], 3));
    Place(a2, 3, s, 2, World([a2, b], 3), Issue(0, s, 2), World([a3, b], 2));
  }

  /** ... and doubles, which moves `last` to 4. */
  lemma DoubleFirst(s: string, b: seq<string>)
    requires s != ""
    ensures WorldCall(World([Small(s, true, true, true), b], 2), Issue(0, s, 4), World([Doubled(s), b], 4))
  {
    var a := Small(s, true, true, true);
    LastAhead(a, 2);
    assert TakenAfterGrowth(a, 2, 4, 5);
    var w, w' := World([a, b], 2), World([Doubled(s), b], 4);
    assert Allocated(w.maps[0], w.last, s, w'.maps[0], 4, 5, 4);
  }

  lemma Stuck(s: string)
    requires s != ""
    ensures !Halts(Small(s, true, true, true), 4)
  {
    assert forall q :: !Stops(Small(s, true, true, true), 4, q);
    HaltsIff(Small(s, true, true, true), 4);
  }

  /** A run with one more call. */
  lemma Extend(ws: seq<World>, cs: seq<Issue>, w: World, c: Issue, w': World) returns (ws': seq<World>, cs': seq<Issue>)
    requires WorldRun(ws, cs) && ws[|cs|] == w && WorldCall(w, c, w')
    ensures WorldRun(ws', cs') && ws' == ws + [w'] && cs' == cs + [c]
  {
    ws', cs' := ws + [w'], cs + [c];
    forall k | 0 <= k < |cs'| ensures WorldCall(ws'[k], cs'[k], ws'[k + 1]) {
      if k < |cs| {
        assert WorldCall(ws[k], cs[k], ws[k + 1]);
        assert ws'[k] == ws[k] && ws'[k + 1] == ws[k + 1];
      }
    }
  }

  /** Two calls on the second of two fresh maps. */
  lemma SecondTwice(s: string) returns (ws: seq<World>, cs: seq<Issue>)
    requires s != ""
    ensures WorldRun(ws, cs) && ws[0] == World([Cleared(4), Cleared(4)], 0) && |cs| == 2
    ensures ws[2] == World([Small(s, false, false, false), Small(s, true, true, false)], 1)
  {
    var e, one, two := Small(s, false, false, false), Small(s, false, true, false), Small(s, true, true, false);
    assert e == Cleared(4);
    FillSecond(s, e);
    ws, cs := [World([e, e], 0)], [];
    ws, cs := Extend(ws, cs, World([e, e], 0), Issue(1, s, 2), World([e, one], 2));
    ws, cs := Extend(ws, cs, World([e, one], 2), Issue(1, s, 1), World([e, two], 1));
  }

  /** A third call fills it up. */
  lemma SecondFull(s: string) returns (ws: seq<World>, cs: seq<Issue>)
    requires s != ""
    ensures WorldRun(ws, cs) && ws[0] == World([Cleared(4), Cleared(4)], 0) && |cs| == 3
    ensures ws[3] == World([Small(s, false, false, false), Small(s, true, true, true)], 3)
  {
    var e, two, full := Small(s, false, false, false), Small(s, true, true, false), Small(s, true, true, true);
    ws, cs := SecondTwice(s);
    FillSecond(s, e);
    ws, cs := Extend(ws, cs, World([e, two], 1), Issue(1, s, 3), World([e, full], 3));
  }

  /** Two maps fresh from `Init` and `last` still 0: three calls on the second map and four on
      the first leave the second map full with `last` outside it, and the next call on it
      never returns. */
  lemma NeverReturns(s: string) returns (ws: seq<World>, cs: seq<Issue>)
    requires s != ""
    ensures WorldRun(ws, cs) && ws[0] == World([Cleared(4), Cleared(4)], 0)
    ensures |cs| == 7 && |ws[7].maps| == 2 && |ws[7].maps[1]| == 4 && !Halts(ws[7].maps[1], ws[7].last)
  {
    var e, one, two, full := Small(s, false, false, false), Small(s, true, false, false), Small(s, true, false, true), Small(s, true, true, true);
    ws, cs := SecondFull(s);
    FillFirst(s, full);
    DoubleFirst(s, full);
    ws, cs := Extend(ws, cs, World([e, full], 3), Issue(0, s, 1), World([one, full], 1));
    ws, cs := Extend(ws, cs, World([one, full], 1), Issue(0, s, 3), World([two, full], 3));
    ws, cs := Extend(ws, cs, World([two, full], 3), Issue(0, s, 2), World([full, full], 2));
    ws, cs := Extend(ws, cs, World([full, full], 2), Issue(0, s, 4), World([Doubled(s), full], 4));
    Stuck(s);
  }

  // ---------- a table that grows early ----------

  /** The second map doubled, with slots 1, 2 and 4 taken. */
  function DoubledEarly(s: string): (r: seq<string>)
    ensures |r| == 8
  {
    (Small(s, true, true, false) + Cleared(4))[4 := s]
  }

  /** With `last` at 3 a table that has slots 1 and 2 taken doubles, and takes slot 4. */
  lemma DoubleEarly(s: string, a: seq<string>)
    requires s != ""
    ensures WorldCall(World([a, Small(s, true, true, false)], 3), Issue(1, s, 4), World([a, DoubledEarly(s)], 4))
  {
    var b := Small(s, true, true, false);
    LastAhead(b, 3);
    assert TakenAfterGrowth(b, 3, 4, 4);
    var w, w' := World([a, b], 3), World([a, DoubledEarly(s)], 4);
    assert Allocated(w.maps[1], w.last, s, w'.maps[1], 4, 4, 4);
  }

  /** The first map takes slot 3 in between. */
  lemma TakeThird(s: string, b: seq<string>)
    requires s != ""
    ensures WorldCall(World([Small(s, false, false, false), b], 1), Issue(0, s, 3), World([Small(s, false, false, true), b], 3))
  {
    var e := Small(s, false, false, false);
    assert Small(s, false, false, true) == e[3 := s];
    Place(e, 1, s, 3, World([e, b], 1), Issue(0, s, 3), World([e[3 := s], b], 3));
  }

  /** Two calls on the second of two fresh maps and one on the first. */
  lemma ThirdFree(s: string) returns (ws: seq<World>, cs: seq<Issue>)
    requires s != ""
    ensures WorldRun(ws, cs) && ws[0] == World([Cleared(4), Cleared(4)], 0) && |cs| == 3
    ensures ws[3] == World([Small(s, false, false, true), Small(s, true, true, false)], 3)
  {
    var e, two, a := Small(s, false, false, false), Small(s, true, true, false), Small(s, false, false, true);
    ws, cs := SecondTwice(s);
    TakeThird(s, two);
    ws, cs := Extend(ws, cs, World([e, two], 1), Issue(0, s, 3), World([a, two], 3));
  }

  /** Two maps fresh from `Init` and `last` still 0: two calls on the second map and one on the
      first, and the next call doubles the second map although its slot 3 is free. */
  lemma GrowsEarly(s: string) returns (ws: seq<World>, cs: seq<Issue>)
    requires s != ""
    ensures WorldRun(ws, cs) && ws[0] == World([Cleared(4), Cleared(4)], 0)
    ensures |cs| == 4 && cs[3].m == 1 && |ws[3].maps| == |ws[4].maps| == 2
    ensures |ws[3].maps[1]| == 4 && ws[3].maps[1][3] == "" && |ws[4].maps[1]| == 8
  {
    var a, b := Small(s, false, false, true), Small(s, true, true, false);
    ws, cs := ThirdFree(s);
    DoubleEarly(s, a);
    ws, cs := Extend(ws, cs, World([a, b], 3), Issue(1, s, 4), World([a, DoubledEarly(s)], 4));
  }

  // ---------- empty strings ----------

  lemma PlaceEmpty(last: nat, h: nat)
    requires (last == 0 && h == 2) || (last == 2 && h == 1) || (last == 1 && h == 3) || (last == 3 && h == 1)
    ensures WorldCall(World([Cleared(4)], last), Issue(0, "", h), World([Cleared(4)], h))
  {
    var e := Small("", false, false, false);
    assert e == Cleared(4) && e[h := ""] == e;
    Place(e, last, "", h, World([e], last), Issue(0, "", h), World([e], h));
  }

  lemma ExtendEmpty(ws: seq<World>, cs: seq<Issue>, last: nat, h: nat) returns (ws': seq<World>, cs': seq<Issue>)
    requires WorldRun(ws, cs) && ws[|cs|] == World([Cleared(4)], last)
    requires (last == 0 && h == 2) || (last == 2 && h == 1) || (last == 1 && h == 3) || (last == 3 && h == 1)
    ensures WorldRun(ws', cs') && |cs'| == |cs| + 1 && ws'[0] == ws[0] && ws'[|cs'|] == World([Cleared(4)], h)
    ensures cs'[|cs|] == Issue(0, "", h) && forall k :: 0 <= k < |cs| ==> cs'[k] == cs[k]
  {
    PlaceEmpty(last, h);
    ws', cs' := Extend(ws, cs, World([Cleared(4)], last), Issue(0, "", h), World([Cleared(4)], h));
  }

  /** One fresh map: the second and the fourth call for the empty string return the same handle. */
  lemma EmptyRepeats() returns (ws: seq<World>, cs: seq<Issue>)
    ensures WorldRun(ws, cs) && ws[0] == World([Cleared(4)], 0) && |cs| == 4
    ensures cs[0] == Issue(0, "", 2) && cs[1] == Issue(0, "", 1) && cs[2] == Issue(0, "", 3) && cs[3] == Issue(0, "", 1)
  {
    ws, cs := [World([Cleared(4)], 0)], [];
    ws, cs := ExtendEmpty(ws, cs, 0, 2);
    ws, cs := ExtendEmpty(ws, cs, 2, 1);
    ws, cs := ExtendEmpty(ws, cs, 1, 3);
    ws, cs := ExtendEmpty(ws, cs, 3, 1);
  }

  /** In no run does the map of a call for `s` give out that call's handle again. */
  ghost predicate NeverRepeated(s: string) {
    forall ws: seq<World>, cs: seq<Issue>, k, l :: WorldRun(ws, cs) && 0 <= k < l < |cs| && cs[k].m == cs[l].m && cs[k].s == s ==> cs[k].h != cs[l].h
  }

  /** Handles are good for exactly the strings that are not empty. */
  lemma NeverRepeatedIff(s: string)
    ensures NeverRepeated(s) <==> s != ""
  {
    if s == "" {
      var ws, cs := EmptyRepeats();
      assert cs[1].h == cs[3].h;
    } else {
      forall ws: seq<World>, cs: seq<Issue>, k, l | WorldRun(ws, cs) && 0 <= k < l < |cs| && cs[k].m == cs[l].m && cs[k].s == s
        ensures cs[k].h != cs[l].h
      {
        HandlesDistinct(ws, cs, k, l);
      }
    }
  }
}

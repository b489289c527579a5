/**
  What the workers' loads bring back, and which pairs of results main can find: every pair of
  zeros and ones, but two zeros only where stores are buffered and there is no fence.
 */
module ReorderOutcomes {
  import opened Wrappers
  import opened ReorderMachine
  import opened ReorderInvariant
  import opened ReorderTheorems
  import opened ReorderRuns

  // ---------- what a load brings back ----------

  /** A worker's load brings back what memory holds for the other variable at that moment. */
  lemma LoadReads(c: Config, s: State, t: Tid, m: State)
    requires c.Valid() && Reachable(c, s) && Next(c, s, Exec(t)) == Some(m)
    ensures t == One && s.one.pc == WLoad ==> m == s.(one := s.one.(pc := WSave, reg := s.mem.y.val))
    ensures t == Two && s.two.pc == WLoad ==> m == s.(two := s.two.(pc := WSave, reg := s.mem.x.val))
  {
    assert Buffers(c, s) by { ReachableInv(c, s); }
    if t == One && s.one.pc == WLoad {
      LoadFromMemory(c, s.one, s.mem, X, R1, Y);
    } else if t == Two && s.two.pc == WLoad {
      LoadFromMemory(c, s.two, s.mem, Y, R2, X);
    }
  }

  predicate Bit(v: int) {
    v == 0 || v == 1
  }

  predicate HasLoaded(w: Worker) {
    w.iter > 1 || Loaded(w)
  }

  /** Nothing but zeros and ones is stored or loaded. */
  predicate Bits(s: State) {
    && Bit(s.mem.x.val) && Bit(s.mem.y.val)
    && (HasLoaded(s.one) ==> Bit(s.one.reg)) && (HasLoaded(s.two) ==> Bit(s.two.reg))
  }

  /** In the round, a variable that is still zero has been read as zero. */
  predicate ZeroLoads(c: Config, s: State)
    requires c.Valid()
  {
    Running(c, Skel(s)) ==>
      && (Loaded(s.one) && s.mem.y.val == 0 ==> s.one.reg == 0)
      && (Loaded(s.two) && s.mem.x.val == 0 ==> s.two.reg == 0)
  }

  lemma OneBits(c: Config, s: State, m: State)
    requires c.Valid() && Buffers(c, s) && Bits(s) && ZeroLoads(c, s) && Next(c, s, Exec(One)) == Some(m)
    requires Running(c, Skel(m)) ==> Running(c, Skel(s)) || !(Loaded(m.one) || Loaded(m.two))
    ensures Bits(m) && ZeroLoads(c, m)
  {
    if s.one.pc == WLoad {
      LoadFromMemory(c, s.one, s.mem, X, R1, Y);
    }
  }

  lemma TwoBits(c: Config, s: State, m: State)
    requires c.Valid() && Buffers(c, s) && Bits(s) && ZeroLoads(c, s) && Next(c, s, Exec(Two)) == Some(m)
    requires Running(c, Skel(m)) ==> Running(c, Skel(s)) || !(Loaded(m.one) || Loaded(m.two))
    ensures Bits(m) && ZeroLoads(c, m)
  {
    if s.two.pc == WLoad {
      LoadFromMemory(c, s.two, s.mem, Y, R2, X);
    }
  }

  lemma OtherBits(c: Config, s: State, a: Action, m: State)
    requires c.Valid() && Buffers(c, s) && Bits(s) && ZeroLoads(c, s) && Next(c, s, a) == Some(m)
    requires a != Exec(One) && a != Exec(Two)
    requires Running(c, Skel(m)) ==> Running(c, Skel(s)) || !(Loaded(m.one) || Loaded(m.two))
    ensures Bits(m) && ZeroLoads(c, m)
  {
  }

  /** The threads come into a round from the start barrier. */
  lemma IntoRound(c: Config, s: State, a: Action, m: State)
    requires c.Valid() && Phases(c, Skel(s)) && Next(c, s, a) == Some(m) && Running(c, Skel(m))
    ensures Running(c, Skel(s)) || !(Loaded(m.one) || Loaded(m.two))
  {
    StepMoves(c, s, a, m);
    PhasesDisjoint(c, Skel(m));
    PhasesDisjoint(c, Skel(s));
    if Skel(m) != Skel(s) {
      if Gather(c, Skel(s)) {
        GatherMoves(c, Skel(s), a.t, Skel(m));
      } else if !Running(c, Skel(s)) {
        var u := if Solo(c, Skel(s), Main) then Main else if Solo(c, Skel(s), One) then One else Two;
        SoloMoves(c, Skel(s), u, a.t, Skel(m));
      }
    }
  }

  lemma StepBits(c: Config, s: State, a: Action, m: State)
    requires c.Valid() && Buffers(c, s) && Phases(c, Skel(s)) && Bits(s) && ZeroLoads(c, s) && Next(c, s, a) == Some(m)
    ensures Bits(m) && ZeroLoads(c, m)
  {
    if Running(c, Skel(m)) {
      IntoRound(c, s, a, m);
    }
    if a == Exec(One) {
      OneBits(c, s, m);
    } else if a == Exec(Two) {
      TwoBits(c, s, m);
    } else {
      OtherBits(c, s, a, m);
    }
  }

  lemma {:induction false} RunBits(c: Config, s: State, sched: seq<Action>, t: State)
    requires c.Valid() && Inv(c, s) && Bits(s) && ZeroLoads(c, s) && Execute(c, s, sched) == Some(t)
    ensures Inv(c, t) && Bits(t) && ZeroLoads(c, t)
  {
    if sched != [] {
      var m := Execute(c, s, sched[..|sched| - 1]).value;
      RunBits(c, s, sched[..|sched| - 1], m);
      StepInv(c, m, sched[|sched| - 1], t);
      StepBits(c, m, sched[|sched| - 1], t);
    }
  }

  /** In every reachable state, wrapped or not: registers that have been loaded hold 0 or 1, and
      within a round 0 if the variable they were loaded from is still 0. */
  lemma LoadedBits(c: Config, s: State)
    requires c.Valid() && Reachable(c, s)
    ensures Bits(s) && ZeroLoads(c, s)
  {
    var boot :| Initially(boot) && Reaches(c, boot, s);
    var sched :| Execute(c, boot, sched) == Some(s);
    InitialInv(c, boot);
    RunBits(c, boot, sched, s);
  }

  // ---------- one round in which nothing is reordered ----------

  lemma OneStores(c: Config, origin: State, s: State) returns (t: State)
    requires c.Valid() && Reaches(c, origin, s) && s.one.pc == WStore && s.one.buf == []
    ensures Reaches(c, origin, t)
    ensures t == s.(mem := s.mem.(x := Word(1, s.one.iter)), one := s.one.(pc := WLoad))
  {
    t := Go(c, origin, s, Exec(One));
    if c.buffered {
      t := Go(c, origin, t, Flush(One));
    }
    assert t == s.(mem := s.mem.(x := Word(1, s.one.iter)), one := s.one.(pc := WFence));
    t := Go(c, origin, t, Exec(One));
  }

  lemma TwoStores(c: Config, origin: State, s: State) returns (t: State)
    requires c.Valid() && Reaches(c, origin, s) && s.two.pc == WStore && s.two.buf == []
    ensures Reaches(c, origin, t)
    ensures t == s.(mem := s.mem.(y := Word(1, s.two.iter)), two := s.two.(pc := WLoad))
  {
    t := Go(c, origin, s, Exec(Two));
    if c.buffered {
      t := Go(c, origin, t, Flush(Two));
    }
    assert t == s.(mem := s.mem.(y := Word(1, s.two.iter)), two := s.two.(pc := WFence));
    t := Go(c, origin, t, Exec(Two));
  }

  lemma OneLoads(c: Config, origin: State, s: State) returns (t: State)
    requires c.Valid() && Reaches(c, origin, s) && s.one.pc == WLoad && s.one.buf == []
    ensures Reaches(c, origin, t)
    ensures t == s.(mem := s.mem.(r1 := Word(s.mem.y.val, s.one.iter)), one := s.one.(pc := WEnterEnd, reg := s.mem.y.val))
  {
    t := Go(c, origin, s, Exec(One));
    assert t == s.(one := s.one.(pc := WSave, reg := s.mem.y.val));
    t := Go(c, origin, t, Exec(One));
    if c.buffered {
      t := Go(c, origin, t, Flush(One));
    }
  }

  lemma TwoLoads(c: Config, origin: State, s: State) returns (t: State)
    requires c.Valid() && Reaches(c, origin, s) && s.two.pc == WLoad && s.two.buf == []
    ensures Reaches(c, origin, t)
    ensures t == s.(mem := s.mem.(r2 := Word(s.mem.x.val, s.two.iter)), two := s.two.(pc := WEnterEnd, reg := s.mem.x.val))
  {
    t := Go(c, origin, s, Exec(Two));
    assert t == s.(two := s.two.(pc := WSave, reg := s.mem.x.val));
    t := Go(c, origin, t, Exec(Two));
    if c.buffered {
      t := Go(c, origin, t, Flush(Two));
    }
  }

  /** The first round, all three between the barriers and nothing stored yet. */
  predicate AllIn(c: Config, s: State)
    requires c.Valid()
  {
    && s.main.pc == MEnterEnd && s.main.iter == s.one.iter == s.two.iter == 1
    && s.one.pc == s.two.pc == WStore && s.main.buf == s.one.buf == s.two.buf == []
    && s.mem.x.val == s.mem.y.val == 0 && s.mem.end == 0
  }

  lemma FirstRound(c: Config, boot: State) returns (t: State)
    requires c.Valid() && Initially(boot)
    ensures Reaches(c, boot, t) && AllIn(c, t)
  {
    ReachesSelf(c, boot);
    t := MainEnters(c, boot, boot);
    t := BothEnter(c, boot, t);
  }

  /** One after the other, or both stores before both loads. */
  lemma BothWork(c: Config, origin: State, s: State, v1: int, v2: int) returns (t: State)
    requires c.Valid() && Reaches(c, origin, s) && AllIn(c, s) && Bit(v1) && Bit(v2) && (v1 == 1 || v2 == 1)
    ensures Reaches(c, origin, t) && t.mem.r1.val == v1 && t.mem.r2.val == v2
    ensures t.main == s.main && t.mem.start == s.mem.start && t.mem.end == s.mem.end
    ensures t.one.pc == t.two.pc == WEnterEnd && t.one.buf == t.two.buf == [] && t.one.iter == t.two.iter == 1
  {
    if v1 == 0 {
      t := OneStores(c, origin, s);
      t := OneLoads(c, origin, t);
      t := TwoStores(c, origin, t);
      t := TwoLoads(c, origin, t);
    } else if v2 == 0 {
      t := TwoStores(c, origin, s);
      t := TwoLoads(c, origin, t);
      t := OneStores(c, origin, t);
      t := OneLoads(c, origin, t);
    } else {
      t := OneStores(c, origin, s);
      t := TwoStores(c, origin, t);
      t := OneLoads(c, origin, t);
      t := TwoLoads(c, origin, t);
    }
  }

  /** Main comes to its check with these results before the counters wrap. */
  predicate Finds(c: Config, s: State, v1: int, v2: int)
    requires c.Valid()
  {
    Unwrapped(c, s) && s.main.pc == MCheck1 && s.mem.r1.val == v1 && s.mem.r2.val == v2
  }

  /** In every configuration, fenced or not. */
  lemma OrderedOutcome(c: Config, boot: State, v1: int, v2: int) returns (t: State)
    requires c.Valid() && Initially(boot) && Bit(v1) && Bit(v2) && (v1 == 1 || v2 == 1)
    ensures Reaches(c, boot, t) && Finds(c, t, v1, v2)
  {
    t := FirstRound(c, boot);
    t := BothWork(c, boot, t, v1, v2);
    t := AllLeave(c, boot, t);
  }

  /** Without a fence. */
  lemma RacedOutcome(c: Config, boot: State) returns (t: State)
    requires c.Valid() && Initially(boot) && c.buffered && !c.fence
    ensures Reaches(c, boot, t) && Finds(c, t, 0, 0)
  {
    ReachesSelf(c, boot);
    t := MainEnters(c, boot, boot);
    t := RacedRound(c, boot, t);
  }

  lemma FoundBits(c: Config, s: State)
    requires c.Valid() && Reachable(c, s) && Unwrapped(c, s) && s.main.pc == MCheck1
    ensures Bit(s.mem.r1.val) && Bit(s.mem.r2.val)
  {
    CheckIsFresh(c, s);
    LoadedBits(c, s);
    RoundsBehind(c, s) by { ReachableInv(c, s); }
  }

  lemma RoundsBehind(c: Config, s: State)
    requires c.Valid() && Inv(c, s) && Unwrapped(c, s) && s.main.pc == MCheck1
    ensures HasLoaded(s.one) && HasLoaded(s.two)
  {
    PhasesDisjoint(c, Skel(s));
    assert Level(c, Skel(s), Starts(s), Ends(s));
  }

  /** What main can find is any two of zero and one, and two zeros only where stores are
      buffered and there is no fence. */
  lemma OutcomesIff(c: Config, v1: int, v2: int)
    requires c.Valid()
    ensures (exists s :: Reachable(c, s) && Finds(c, s, v1, v2)) <==>
            Bit(v1) && Bit(v2) && (v1 == 1 || v2 == 1 || (c.buffered && !c.fence))
  {
    if s :| Reachable(c, s) && Finds(c, s, v1, v2) {
      FoundBits(c, s);
      if c.fence || !c.buffered {
        NeverDetected(c, s);
      }
    }
    if Bit(v1) && Bit(v2) && (v1 == 1 || v2 == 1) {
      var t := OrderedOutcome(c, Boot(), v1, v2);
      assert Reachable(c, t);
    } else if v1 == v2 == 0 && c.buffered && !c.fence {
      var t := RacedOutcome(c, Boot());
      assert Reachable(c, t);
    }
  }
}

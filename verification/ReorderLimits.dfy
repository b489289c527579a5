/**
  How long what the barriers give lasts: order at the barriers, and freshness of what is
  stored and checked, hold as long as `start` has been entered fewer than 2^bits times, and in
  every configuration a run shows each of them failing at that very entry.
 */
module ReorderLimits {
  import opened Wrappers
  import opened ReorderMachine
  import opened ReorderInvariant
  import opened ReorderTheorems
  import opened ReorderRuns

  // ---------- the last round before the wrap ----------

  /** All three are in the round after which `start` is at its greatest value. */
  predicate LastRound(c: Config, s: State)
    requires c.Valid()
  {
    Inv(c, s) && Unwrapped(c, s) && Running(c, Skel(s)) && s.mem.start == c.Modulus() - 1
  }

  /** That round is over, and nobody has entered `start` again. */
  predicate RoundsOver(c: Config, s: State)
    requires c.Valid()
  {
    Inv(c, s) && Unwrapped(c, s) && s.mem.start == s.mem.end == c.Modulus() - 1
  }

  lemma LastComesFirst(c: Config, s: State, a: Action, m: State)
    requires c.Valid() && Inv(c, s) && Unwrapped(c, s) && s.mem.end < c.Modulus() - 1 && !LastRound(c, s)
    requires Next(c, s, a) == Some(m)
    ensures Unwrapped(c, m) && m.mem.end < c.Modulus() - 1
  {
    var k := Skel(s);
    StepMoves(c, s, a, m);
    StepTallies(c, s, a, m);
    assert Counted(k, Starts(s), Ends(s)) && Level(c, k, Starts(s), Ends(s));
    if !Unwrapped(c, m) {
      WrapStep(c, s, a, m);
    } else if Skel(m) != k && k.At(a.t) == Between {
      if Gather(c, k) {
        GatherMoves(c, k, a.t, Skel(m));
      }
    }
  }

  lemma {:induction false} ToLastRound(c: Config, origin: State, s: State) returns (t: State)
    requires c.Valid() && Reaches(c, origin, s) && Inv(c, s) && Unwrapped(c, s) && s.mem.end < c.Modulus() - 1
    ensures Reaches(c, origin, t) && LastRound(c, t)
    decreases 72 * c.Modulus() + 75 - Clock(s)
  {
    if LastRound(c, s) {
      t := s;
    } else {
      InvDeadlock(c, s);
      UnwrappedAlive(c, s);
      var a, m :| Productive(c, s, a, m);
      LastComesFirst(c, s, a, m);
      ReachesStep(c, origin, s, a, m);
      StepInv(c, s, a, m);
      ClockTicks(c, s, a, m);
      RoundWindow(c, m);
      assert m.main.iter <= TotalStarts(m) + 1;
      t := ToLastRound(c, origin, m);
    }
  }

  /** In the last round: the workers go first. */
  lemma WorkersFirst(c: Config, s: State) returns (a: Action, m: State)
    requires c.Valid() && LastRound(c, s)
    ensures Productive(c, s, a, m) && (LastRound(c, m) || (RoundsOver(c, m) && m.main.pc == MSpinEnd && m.one.pc == WSpinEnd))
  {
    var k := Skel(s);
    var v := if k.one != AtEnd then One else if k.two != AtEnd then Two else Main;
    var buf := match v case Main => s.main.buf case One => s.one.buf case Two => s.two.buf;
    a := if buf != [] then Flush(v) else Exec(v);
    m := Next(c, s, a).value;
    InRoundMoves(c, s, v, a, m);
  }

  lemma InRoundMoves(c: Config, s: State, v: Tid, a: Action, m: State)
    requires c.Valid() && LastRound(c, s) && Skel(s).At(v) != AtEnd && Productive(c, s, a, m) && a.t == v
    ensures LastRound(c, m) || (RoundsOver(c, m) && m.main.pc == MSpinEnd && m.one.pc == WSpinEnd)
  {
    StepInv(c, s, a, m);
    StepMoves(c, s, a, m);
    StepTallies(c, s, a, m);
    if Skel(m) != Skel(s) {
      RunningMoves(c, Skel(s), v, Skel(m));
    }
  }

  lemma {:induction false} FinishLastRound(c: Config, origin: State, s: State) returns (t: State)
    requires c.Valid() && Reaches(c, origin, s) && LastRound(c, s)
    ensures Reaches(c, origin, t) && RoundsOver(c, t) && t.main.pc == MSpinEnd && t.one.pc == WSpinEnd
    decreases 72 * c.Modulus() + 75 - Clock(s)
  {
    var a, m := WorkersFirst(c, s);
    ReachesStep(c, origin, s, a, m);
    ClockTicks(c, s, a, m);
    RoundWindow(c, m);
    assert m.main.iter <= TotalStarts(m) + 1;
    if LastRound(c, m) {
      t := FinishLastRound(c, origin, m);
    } else {
      t := m;
    }
  }

  /** From every start of the program: the last round has just ended, and nobody has left `end`. */
  lemma EndOfRounds(c: Config, boot: State) returns (t: State)
    requires c.Valid() && Initially(boot)
    ensures Reaches(c, boot, t) && RoundsOver(c, t) && t.main.pc == MSpinEnd && t.one.pc == WSpinEnd
  {
    ReachesSelf(c, boot);
    InitialInv(c, boot);
    t := ToLastRound(c, boot, boot);
    t := FinishLastRound(c, boot, t);
  }

  lemma AllEntered(c: Config, s: State)
    requires c.Valid() && RoundsOver(c, s)
    ensures Gather(c, Skel(s)) && Skel(s).Count(AtStart) == 0 && TotalStarts(s) == c.Modulus() - 1
  {
    assert Counted(Skel(s), Starts(s), Ends(s)) && Level(c, Skel(s), Starts(s), Ends(s));
  }

  // ---------- main goes on alone ----------

  /** Steps of main up to its next entry. */
  function MainLeft(p: Master): nat {
    match p.pc
    case MSpinEnd => 10
    case MCheck1 => 9
    case MCheck2 => 8
    case MZeroX => 7
    case MZeroY => 5 + |p.buf|
    case MEnterStart => 2 + |p.buf|
    case _ => 0
  }

  lemma MainStepsOn(c: Config, s: State) returns (a: Action, m: State)
    requires c.Valid() && RoundsOver(c, s) && !(s.main.pc == MEnterStart && s.main.buf == [])
    ensures Next(c, s, a) == Some(m) && RoundsOver(c, m) && MainLeft(m.main) < MainLeft(s.main)
  {
    AllEntered(c, s);
    a := if s.main.buf != [] then Flush(Main) else Exec(Main);
    m := Next(c, s, a).value;
    StepInv(c, s, a, m);
    StepTallies(c, s, a, m);
  }

  lemma {:induction false} DriveMain(c: Config, origin: State, s: State) returns (t: State)
    requires c.Valid() && Reaches(c, origin, s) && RoundsOver(c, s)
    ensures Reaches(c, origin, t) && RoundsOver(c, t) && t.main.pc == MEnterStart && t.main.buf == []
    decreases MainLeft(s.main)
  {
    if s.main.pc == MEnterStart && s.main.buf == [] {
      t := s;
    } else {
      var a, m := MainStepsOn(c, s);
      ReachesStep(c, origin, s, a, m);
      t := DriveMain(c, origin, m);
    }
  }

  /** If main is the one that wraps `start`, it goes through both barriers alone and checks with
      its own zero still in X. */
  lemma StaleCheck(c: Config, boot: State) returns (t: State)
    requires c.Valid() && Initially(boot)
    ensures Reaches(c, boot, t) && TotalStarts(t) == c.Modulus()
    ensures t.main.pc == MCheck1 && t.mem.x.val == 0
  {
    var s := EndOfRounds(c, boot);
    s := DriveMain(c, boot, s);
    AllEntered(c, s);
    t := MainThrough(c, boot, s);
  }

  lemma MainThrough(c: Config, origin: State, s: State) returns (t: State)
    requires c.Valid() && Reaches(c, origin, s) && RoundsOver(c, s) && s.main.pc == MEnterStart && s.main.buf == []
    ensures Reaches(c, origin, t) && t.mem.x.val == 0
    ensures t == s.(mem := s.mem.(start := 0, end := 0), main := s.main.(pc := MCheck1))
  {
    AllEntered(c, s);
    t := Go(c, origin, s, Exec(Main));
    t := Go(c, origin, t, Exec(Main));
    t := Go(c, origin, t, Exec(Main));
    t := Go(c, origin, t, Exec(Main));
  }

  /** If a worker is the one that wraps `start`, it goes on to store while main has not zeroed. */
  lemma EarlyStore(c: Config, boot: State) returns (t: State)
    requires c.Valid() && Initially(boot)
    ensures Reaches(c, boot, t) && TotalStarts(t) == c.Modulus()
    ensures t.one.pc == WStore && t.mem.x.val == 1 && t.main.iter < t.one.iter
  {
    var s := EndOfRounds(c, boot);
    AllEntered(c, s);
    assert Ends(s).Each(Ends(s).main) by { assert Level(c, Skel(s), Starts(s), Ends(s)); }
    t := Go(c, boot, s, Exec(One));
    t := Go(c, boot, t, Exec(One));
    t := Go(c, boot, t, Exec(One));
  }

  // ---------- exactly how long ----------

  /** What `CheckIsFresh` says. */
  predicate FreshCheck(s: State) {
    s.main.pc == MCheck1 || s.main.pc == MCheck2 ==>
      && s.mem.x == Word(1, s.main.iter) && s.mem.y == Word(1, s.main.iter)
      && s.mem.r1.stamp == s.mem.r2.stamp == s.main.iter
      && s.mem.r1.val == s.one.reg && s.mem.r2.val == s.two.reg
      && s.main.buf == s.one.buf == s.two.buf == []
  }

  /** Main's checks are fresh in all states with up to `n` entries of `start` iff n < 2^bits. */
  lemma FreshCheckIff(c: Config, n: int)
    requires c.Valid()
    ensures (forall s :: Reachable(c, s) && TotalStarts(s) <= n ==> FreshCheck(s)) <==> n < c.Modulus()
  {
    if n < c.Modulus() {
      forall s | Reachable(c, s) && TotalStarts(s) <= n ensures FreshCheck(s) {
        if s.main.pc == MCheck1 || s.main.pc == MCheck2 {
          CheckIsFresh(c, s);
        }
      }
    } else {
      var t := StaleCheck(c, Boot());
      assert Reachable(c, t) && !FreshCheck(t);
    }
  }

  /** What `ZeroBeforeStore` says. */
  predicate ZeroedFirst(s: State) {
    && (s.one.pc == WStore ==> s.mem.x == Word(0, s.one.iter) && s.main.iter == s.one.iter && s.main.buf == [])
    && (s.two.pc == WStore ==> s.mem.y == Word(0, s.two.iter) && s.main.iter == s.two.iter && s.main.buf == [])
  }

  /** Main's zero comes before a worker's store in all states with up to `n` entries iff n < 2^bits. */
  lemma ZeroedFirstIff(c: Config, n: int)
    requires c.Valid()
    ensures (forall s :: Reachable(c, s) && TotalStarts(s) <= n ==> ZeroedFirst(s)) <==> n < c.Modulus()
  {
    if n < c.Modulus() {
      forall s | Reachable(c, s) && TotalStarts(s) <= n ensures ZeroedFirst(s) {
        ZeroBeforeStore(c, s);
      }
    } else {
      var t := EarlyStore(c, Boot());
      assert Reachable(c, t) && !ZeroedFirst(t);
    }
  }

  /** What `BarrierSafety` says of two threads. */
  predicate InOrder(s: State, t: Tid, u: Tid) {
    && LeftStart(s, t) <= EnteredStart(s, u) <= LeftStart(s, t) + 1
    && LeftEnd(s, t) <= EnteredEnd(s, u) <= LeftEnd(s, t) + 1
  }

  /** The barriers keep the threads in order in all states with up to `n` entries iff n < 2^bits. */
  lemma InOrderIff(c: Config, n: int)
    requires c.Valid()
    ensures (forall s, t, u :: Reachable(c, s) && TotalStarts(s) <= n ==> InOrder(s, t, u)) <==> n < c.Modulus()
  {
    if n < c.Modulus() {
      forall s, t, u | Reachable(c, s) && TotalStarts(s) <= n ensures InOrder(s, t, u) {
        BarrierSafety(c, s, t, u);
      }
    } else {
      var t := EarlyStore(c, Boot());
      EarlyLeaves(c, t);
      assert Reachable(c, t) && TotalStarts(t) <= n && !InOrder(t, One, Main);
    }
  }

  lemma EarlyLeaves(c: Config, t: State)
    requires c.Valid() && t.one.pc == WStore && t.main.iter < t.one.iter
    ensures !InOrder(t, One, Main)
  {
  }
}

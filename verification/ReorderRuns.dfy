/**
  Runs that exist: the barriers give out after exactly (2^bits - 1) / 3 rounds and can then
  deadlock, and without a fence the reordering can be seen in every round.
 */
module ReorderRuns {
  import opened Wrappers
  import opened ReorderMachine
  import opened ReorderInvariant
  import opened ReorderTheorems

  /** Extends a run by one enabled action. */
  lemma Go(c: Config, origin: State, s: State, a: Action) returns (t: State)
    requires c.Valid() && Reaches(c, origin, s) && Next(c, s, a).Some?
    ensures Next(c, s, a) == Some(t) && Reaches(c, origin, t)
  {
    t := Next(c, s, a).value;
    ReachesStep(c, origin, s, a, t);
  }

  // ---------- the end of the barriers' life ----------

  /** Any run can be extended, by productive steps, to the one that wraps `start`. */
  lemma {:induction false} RunToWrap(c: Config, origin: State, s: State) returns (u: State, a: Action, t: State)
    requires c.Valid() && Reaches(c, origin, s) && Inv(c, s) && Unwrapped(c, s)
    ensures Reaches(c, origin, u) && Inv(c, u) && Unwrapped(c, u)
    ensures Next(c, u, a) == Some(t) && !Unwrapped(c, t)
    decreases 72 * c.Modulus() + 75 - Clock(s)
  {
    InvDeadlock(c, s);
    UnwrappedAlive(c, s);
    var b, m :| Productive(c, s, b, m);
    ClockTicks(c, s, b, m);
    RoundWindow(c, s);
    assert s.main.iter <= TotalStarts(s) + 1;
    if Unwrapped(c, m) {
      ReachesStep(c, origin, s, b, m);
      StepInv(c, s, b, m);
      u, a, t := RunToWrap(c, origin, m);
    } else {
      u, a, t := s, b, m;
    }
  }

  /** The step that wraps `start` comes when all three have completed the same number of
      rounds, and leaves a counter that lets the one who made it through alone. */
  lemma WrapStep(c: Config, u: State, a: Action, t: State)
    requires c.Valid() && Inv(c, u) && Unwrapped(c, u)
    requires Next(c, u, a) == Some(t) && !Unwrapped(c, t)
    ensures a.Exec? && t.mem.start == 0 && Solo(c, Skel(t), a.t) && Skel(t).At(a.t) == AtStart
    ensures Skel(u).At(a.t) == Outside
    ensures Starts(t) == Starts(u).Bump(a.t)
    ensures Starts(u).main == Starts(u).one == Starts(u).two && 3 * Starts(u).main == c.Modulus() - 1
  {
    var k := Skel(u);
    StepMoves(c, u, a, t);
    StepTallies(c, u, a, t);
    PhasesDisjoint(c, k);
    assert Counted(k, Starts(u), Ends(u)) && Level(c, k, Starts(u), Ends(u));
    assert k.At(a.t) == Outside;
    if Running(c, k) {
      RunningMoves(c, k, a.t, Skel(t));
    }
    GatherMoves(c, k, a.t, Skel(t));
    assert k.Count(AtStart) == 0;
  }

  /** From the start of the program to the wrap. */
  lemma FirstWrap(c: Config, boot: State) returns (u: State, a: Action, t: State)
    requires c.Valid() && Initially(boot)
    ensures Reachable(c, u) && Inv(c, u) && Unwrapped(c, u)
    ensures Reaches(c, boot, t) && Next(c, u, a) == Some(t) && !Unwrapped(c, t)
  {
    ReachesSelf(c, boot);
    InitialInv(c, boot);
    u, a, t := RunToWrap(c, boot, boot);
    ReachesStep(c, boot, u, a, t);
  }

  lemma TwoSteps(c: Config, u: State, a: Action, m: State, t: State)
    requires c.Valid() && Next(c, u, a) == Some(m) && Next(c, m, a) == Some(t)
    ensures Execute(c, u, [a, a]) == Some(t)
  {
    assert [a, a][..1] == [a] && [a][..0] == [];
    assert Execute(c, u, []) == Some(u);
    assert Execute(c, u, [a]) == Some(m);
  }

  /** The barrier property of `BarrierSafety` lasts exactly (2^bits - 1) / 3 rounds: then the
      next thread to enter passes `start` while the other two have not entered. */
  lemma BarrierLifetime(c: Config, boot: State) returns (u: State, a: Action, t: State)
    requires c.Valid() && Initially(boot)
    ensures Reachable(c, u) && 3 * EnteredStart(u, Main) == c.Modulus() - 1
    ensures EnteredStart(u, Main) == EnteredStart(u, One) == EnteredStart(u, Two)
    ensures a.Exec? && Execute(c, u, [a, a]) == Some(t)
    ensures Reachable(c, t) && forall v :: v != a.t ==> LeftStart(t, a.t) > EnteredStart(t, v)
  {
    var m;
    u, a, m := FirstWrap(c, boot);
    WrapStep(c, u, a, m);
    t := Go(c, boot, m, a);
    TwoSteps(c, u, a, m, t);
    PassAlone(c, u, a.t, m, t);
  }

  lemma PassAlone(c: Config, u: State, th: Tid, m: State, t: State)
    requires c.Valid() && Starts(u).Each(Starts(u).main) && Starts(m) == Starts(u).Bump(th)
    requires Skel(m).At(th) == AtStart && m.mem.start == 0 && Next(c, m, Exec(th)) == Some(t)
    ensures forall v :: v != th ==> LeftStart(t, th) > EnteredStart(t, v)
  {
    match th
    case Main =>
    case One =>
    case Two =>
  }

  /** Steps a thread other than the lone one still has before it waits at `start`. */
  function ToStart(s: State): nat {
    (match s.main.pc
     case MSpinEnd => 10
     case MCheck1 => 9
     case MCheck2 => 8
     case MZeroX => 7
     case MZeroY => 5 + |s.main.buf|
     case MEnterStart => 2 + |s.main.buf|
     case _ => 0)
    + WorkerToStart(s.one) + WorkerToStart(s.two)
  }

  function WorkerToStart(w: Worker): nat {
    match w.pc
    case WSpinEnd => 2
    case WEnterStart => 1
    case _ => 0
  }

  /** If the lone thread does not look at `start` before the others have entered, all three
      wait for a value that cannot come. */
  lemma {:induction false} FillUp(c: Config, origin: State, s: State, th: Tid) returns (t: State)
    requires c.Valid() && Reaches(c, origin, s) && Buffers(c, s)
    requires Solo(c, Skel(s), th) && Skel(s).At(th) == AtStart
    ensures Reaches(c, origin, t) && Deadlocked(t)
    decreases ToStart(s)
  {
    var k := Skel(s);
    if k.Count(AtStart) == 3 {
      t := s;
    } else {
      var v := if k.main != AtStart then Main else if k.one != AtStart then One else Two;
      var a := if v == Main && s.main.buf != [] then Flush(Main) else Exec(v);
      var m := Go(c, origin, s, a);
      StepBuffers(c, s, a, m);
      StepMoves(c, s, a, m);
      if Skel(m) != k {
        SoloMoves(c, k, th, v, Skel(m));
      }
      t := FillUp(c, origin, m, th);
    }
  }

  /** The states of `DeadlockIff` can be reached, from every start of the program. */
  lemma DeadlockAfterWrap(c: Config, boot: State) returns (t: State)
    requires c.Valid() && Initially(boot)
    ensures Reachable(c, t) && !CanProceed(c, t)
  {
    var u, a, m := FirstWrap(c, boot);
    WrapStep(c, u, a, m);
    StepInv(c, u, a, m);
    t := FillUp(c, boot, m, a.t);
    DeadlockIff(c, t);
  }

  // ---------- reordering observed ----------

  /** All threads at the top of their loops, nothing buffered, both results zero. */
  predicate Top(c: Config, s: State)
    requires c.Valid()
  {
    && s.main.pc == MZeroX && s.one.pc == s.two.pc == WEnterStart
    && s.main.buf == s.one.buf == s.two.buf == []
    && s.mem.start == s.mem.end < c.Modulus() && s.mem.start % 3 == 0
    && s.mem.r1.val == s.mem.r2.val == 0
  }

  /** Main zeroes both variables and enters `start`. */
  lemma MainEnters(c: Config, origin: State, s: State) returns (t: State)
    requires c.Valid() && Reaches(c, origin, s) && Top(c, s)
    ensures Reaches(c, origin, t)
    ensures t == s.(mem := s.mem.(x := Word(0, s.main.iter), y := Word(0, s.main.iter), start := Increment(c, s.mem.start)),
                    main := s.main.(pc := MSpinStart))
  {
    t := Go(c, origin, s, Exec(Main));
    t := Go(c, origin, t, Exec(Main));
    if c.buffered {
      t := Go(c, origin, t, Flush(Main));
      t := Go(c, origin, t, Flush(Main));
    }
    assert t == s.(mem := s.mem.(x := Word(0, s.main.iter), y := Word(0, s.main.iter)), main := s.main.(pc := MEnterStart));
    t := Go(c, origin, t, Exec(Main));
  }

  /** The workers enter `start`, which completes the barrier. */
  lemma WorkersEnter(c: Config, origin: State, s: State) returns (t: State)
    requires c.Valid() && Reaches(c, origin, s)
    requires s.one.pc == s.two.pc == WEnterStart
    requires s.one.buf == s.two.buf == [] && s.mem.start + 2 < c.Modulus()
    ensures Reaches(c, origin, t)
    ensures t == s.(mem := s.mem.(start := s.mem.start + 2), one := s.one.(pc := WSpinStart), two := s.two.(pc := WSpinStart))
  {
    t := Go(c, origin, s, Exec(One));
    t := Go(c, origin, t, Exec(Two));
  }

  lemma AllPassStart(c: Config, origin: State, s: State) returns (t: State)
    requires c.Valid() && Reaches(c, origin, s)
    requires s.main.pc == MSpinStart && s.one.pc == s.two.pc == WSpinStart && s.mem.start % 3 == 0
    ensures Reaches(c, origin, t)
    ensures t == s.(main := s.main.(pc := MEnterEnd), one := s.one.(pc := WStore), two := s.two.(pc := WStore))
  {
    t := Go(c, origin, s, Exec(Main));
    t := Go(c, origin, t, Exec(One));
    t := Go(c, origin, t, Exec(Two));
  }

  /** A worker's store waits in its buffer while its load reads the other variable's zero. */
  lemma OneLoadsZero(c: Config, origin: State, s: State) returns (t: State)
    requires c.Valid() && c.buffered && !c.fence && Reaches(c, origin, s)
    requires s.one.pc == WStore && s.one.buf == [] && s.mem.y.val == 0
    ensures Reaches(c, origin, t)
    ensures t == s.(one := s.one.(pc := WEnterEnd, reg := 0, buf := Raced(s.one, X, R1)))
  {
    var first := Entry(X, Word(1, s.one.iter));
    t := Go(c, origin, s, Exec(One));
    assert t == s.(one := s.one.(pc := WFence, buf := [first]));
    t := Go(c, origin, t, Exec(One));
    assert t == s.(one := s.one.(pc := WLoad, buf := [first]));
    LoadPast(first, s.mem, Y);
    t := Go(c, origin, t, Exec(One));
    assert t == s.(one := s.one.(pc := WSave, reg := 0, buf := [first]));
    t := Go(c, origin, t, Exec(One));
    assert t.one.buf == Raced(s.one, X, R1);
  }

  lemma LoadPast(e: Entry, mem: Memory, l: Loc)
    requires e.loc != l
    ensures Load([e], mem, l) == mem.Get(l)
  {
    assert [e][..0] == [];
  }

  lemma TwoLoadsZero(c: Config, origin: State, s: State) returns (t: State)
    requires c.Valid() && c.buffered && !c.fence && Reaches(c, origin, s)
    requires s.two.pc == WStore && s.two.buf == [] && s.mem.x.val == 0
    ensures Reaches(c, origin, t)
    ensures t == s.(two := s.two.(pc := WEnterEnd, reg := 0, buf := Raced(s.two, Y, R2)))
  {
    var first := Entry(Y, Word(1, s.two.iter));
    t := Go(c, origin, s, Exec(Two));
    assert t == s.(two := s.two.(pc := WFence, buf := [first]));
    t := Go(c, origin, t, Exec(Two));
    assert t == s.(two := s.two.(pc := WLoad, buf := [first]));
    LoadPast(first, s.mem, X);
    t := Go(c, origin, t, Exec(Two));
    assert t == s.(two := s.two.(pc := WSave, reg := 0, buf := [first]));
    t := Go(c, origin, t, Exec(Two));
    assert t.two.buf == Raced(s.two, Y, R2);
  }

  function Raced(w: Worker, mine: Loc, result: Loc): seq<Entry> {
    [Entry(mine, Word(1, w.iter)), Entry(result, Word(0, w.iter))]
  }

  /** The buffers drain. */
  lemma BothDrain(c: Config, origin: State, s: State) returns (t: State)
    requires c.Valid() && Reaches(c, origin, s)
    requires s.one.buf == Raced(s.one, X, R1) && s.two.buf == Raced(s.two, Y, R2)
    ensures Reaches(c, origin, t)
    ensures t == s.(mem := Memory(Word(1, s.one.iter), Word(1, s.two.iter), Word(0, s.one.iter), Word(0, s.two.iter),
                                  s.mem.start, s.mem.end),
                    one := s.one.(buf := []), two := s.two.(buf := []))
  {
    t := Go(c, origin, s, Flush(One));
    t := Go(c, origin, t, Flush(One));
    t := Go(c, origin, t, Flush(Two));
    t := Go(c, origin, t, Flush(Two));
  }

  lemma AllEnterEnd(c: Config, origin: State, s: State) returns (t: State)
    requires c.Valid() && Reaches(c, origin, s)
    requires s.main.pc == MEnterEnd && s.one.pc == s.two.pc == WEnterEnd
    requires s.main.buf == s.one.buf == s.two.buf == [] && s.mem.end + 3 < c.Modulus()
    ensures Reaches(c, origin, t)
    ensures t == s.(mem := s.mem.(end := s.mem.end + 3), main := s.main.(pc := MSpinEnd),
                    one := s.one.(pc := WSpinEnd), two := s.two.(pc := WSpinEnd))
  {
    t := Go(c, origin, s, Exec(One));
    t := Go(c, origin, t, Exec(Two));
    t := Go(c, origin, t, Exec(Main));
  }

  lemma AllPassEnd(c: Config, origin: State, s: State) returns (t: State)
    requires c.Valid() && Reaches(c, origin, s)
    requires s.main.pc == MSpinEnd && s.one.pc == s.two.pc == WSpinEnd && s.mem.end % 3 == 0
    ensures Reaches(c, origin, t)
    ensures t == s.(main := s.main.(pc := MCheck1), one := s.one.(pc := WEnterStart, iter := s.one.iter + 1),
                    two := s.two.(pc := WEnterStart, iter := s.two.iter + 1))
  {
    t := Go(c, origin, s, Exec(One));
    t := Go(c, origin, t, Exec(Two));
    t := Go(c, origin, t, Exec(Main));
  }

  /** Main finds both results zero. */
  lemma MainDetects(c: Config, origin: State, s: State) returns (t: State)
    requires c.Valid() && Reaches(c, origin, s)
    requires s.main.pc == MCheck1 && s.main.buf == [] && s.mem.r1.val == s.mem.r2.val == 0
    ensures Reaches(c, origin, t)
    ensures t == s.(main := s.main.(pc := MZeroX, iter := s.main.iter + 1, detected := s.main.detected + 1))
  {
    t := Go(c, origin, s, Exec(Main));
    t := Go(c, origin, t, Exec(Main));
  }

  /** Once per 2^bits - 1 entries main wraps both counters and sees the old zeros again. */
  lemma MainAlone(c: Config, origin: State, s: State) returns (t: State)
    requires c.Valid() && Reaches(c, origin, s)
    requires s.main.pc == MSpinStart && s.main.buf == [] && s.mem.start == 0 && s.mem.end == c.Modulus() - 1
    ensures Reaches(c, origin, t)
    ensures t == s.(mem := s.mem.(end := 0), main := s.main.(pc := MCheck1))
  {
    t := Go(c, origin, s, Exec(Main));
    t := Go(c, origin, t, Exec(Main));
    t := Go(c, origin, t, Exec(Main));
  }

  lemma BothEnter(c: Config, origin: State, s: State) returns (t: State)
    requires c.Valid() && Reaches(c, origin, s)
    requires s.main.pc == MSpinStart && s.one.pc == s.two.pc == WEnterStart
    requires s.main.buf == s.one.buf == s.two.buf == []
    requires s.mem.start == s.mem.end + 1 && s.mem.end % 3 == 0 && s.mem.end + 3 < c.Modulus()
    ensures Reaches(c, origin, t)
    ensures t == s.(mem := s.mem.(start := s.mem.start + 2), main := s.main.(pc := MEnterEnd),
                    one := s.one.(pc := WStore), two := s.two.(pc := WStore))
  {
    t := WorkersEnter(c, origin, s);
    t := AllPassStart(c, origin, t);
  }

  /** Both workers load before either's store is seen. */
  lemma BothRace(c: Config, origin: State, s: State) returns (t: State)
    requires c.Valid() && c.buffered && !c.fence && Reaches(c, origin, s)
    requires s.one.pc == s.two.pc == WStore && s.one.buf == s.two.buf == []
    requires s.mem.x.val == s.mem.y.val == 0
    ensures Reaches(c, origin, t) && t.main == s.main && t.mem.start == s.mem.start && t.mem.end == s.mem.end
    ensures t.one.iter == s.one.iter && t.two.iter == s.two.iter
    ensures t.one.pc == t.two.pc == WEnterEnd && t.one.buf == t.two.buf == [] && t.mem.r1.val == t.mem.r2.val == 0
  {
    t := OneLoadsZero(c, origin, s);
    t := TwoLoadsZero(c, origin, t);
    t := BothDrain(c, origin, t);
  }

  lemma AllLeave(c: Config, origin: State, s: State) returns (t: State)
    requires c.Valid() && Reaches(c, origin, s)
    requires s.main.pc == MEnterEnd && s.one.pc == s.two.pc == WEnterEnd
    requires s.main.buf == s.one.buf == s.two.buf == [] && s.mem.end % 3 == 0 && s.mem.end + 3 < c.Modulus()
    ensures Reaches(c, origin, t) && t.mem == s.mem.(end := s.mem.end + 3) && t.main == s.main.(pc := MCheck1)
    ensures t.one.pc == t.two.pc == WEnterStart && t.one.buf == t.two.buf == []
    ensures t.one.iter == s.one.iter + 1 && t.two.iter == s.two.iter + 1
  {
    t := AllEnterEnd(c, origin, s);
    t := AllPassEnd(c, origin, t);
  }

  /** From main waiting at `start` to its check, with the workers' loads ahead of their stores. */
  lemma RacedRound(c: Config, origin: State, s: State) returns (t: State)
    requires c.Valid() && c.buffered && !c.fence && Reaches(c, origin, s)
    requires s.main.pc == MSpinStart && s.one.pc == s.two.pc == WEnterStart
    requires s.main.buf == s.one.buf == s.two.buf == [] && s.mem.x.val == s.mem.y.val == 0
    requires s.mem.start == s.mem.end + 1 && s.mem.end % 3 == 0 && s.mem.end + 3 < c.Modulus()
    ensures Reaches(c, origin, t)
    ensures t.main == s.main.(pc := MCheck1) && t.one.pc == t.two.pc == WEnterStart && t.one.buf == t.two.buf == []
    ensures t.mem.start == t.mem.end == s.mem.end + 3 && t.mem.r1.val == t.mem.r2.val == 0
    ensures t.one.iter == s.one.iter + 1 && t.two.iter == s.two.iter + 1
  {
    t := BothEnter(c, origin, s);
    t := BothRace(c, origin, t);
    t := AllLeave(c, origin, t);
  }

  lemma OneDetection(c: Config, origin: State, s: State) returns (t: State)
    requires c.Valid() && c.buffered && !c.fence && Reaches(c, origin, s) && Top(c, s)
    ensures Reaches(c, origin, t) && Top(c, t)
    ensures t.main.iter == s.main.iter + 1 && t.main.detected == s.main.detected + 1
  {
    t := MainEnters(c, origin, s);
    if s.mem.start + 1 == c.Modulus() {
      t := MainAlone(c, origin, t);
    } else {
      t := RacedRound(c, origin, t);
    }
    t := MainDetects(c, origin, t);
  }

  /** Without a fence, for every n some run makes main complete n rounds and detect a
      reordering in each of them. */
  lemma {:induction false} ReorderObservable(c: Config, boot: State, n: nat) returns (t: State)
    requires c.Valid() && c.buffered && !c.fence && Initially(boot)
    ensures Reaches(c, boot, t) && Top(c, t) && t.main.iter == n + 1 && t.main.detected == n
  {
    if n == 0 {
      t := boot;
      ReachesSelf(c, boot);
    } else {
      t := ReorderObservable(c, boot, n - 1);
      t := OneDetection(c, boot, t);
    }
  }

  /** A start of the program. */
  function Boot(): (s: State)
    ensures Initially(s)
  {
    var zero, worker := Word(0, 0), Worker(WEnterStart, 1, 0, []);
    State(Memory(zero, zero, zero, zero, 0, 0), Master(MZeroX, 1, 0, []), worker, worker)
  }

  /** The fence is needed exactly when stores are buffered. */
  lemma DetectionIffWeak(c: Config)
    requires c.Valid()
    ensures (exists s :: Reachable(c, s) && s.main.detected > 0) <==> c.buffered && !c.fence
  {
    if c.buffered && !c.fence {
      var t := ReorderObservable(c, Boot(), 1);
      assert Reachable(c, t) && t.main.detected > 0;
    } else {
      forall s | Reachable(c, s) ensures s.main.detected == 0 {
        NeverDetected(c, s);
      }
    }
  }
}

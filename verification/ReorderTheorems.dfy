/**
  What the experiment guarantees over whole runs: no reordering with a fence, the two
  barriers, freshness of what main checks, and progress; and how long the barriers last.
 */
module ReorderTheorems {
  import opened Wrappers
  import opened ReorderMachine
  import opened ReorderInvariant

  lemma {:induction false} ExecuteInv(c: Config, s: State, sched: seq<Action>, t: State)
    requires c.Valid() && Inv(c, s) && Execute(c, s, sched) == Some(t)
    ensures Inv(c, t)
  {
    if sched != [] {
      var m := Execute(c, s, sched[..|sched| - 1]).value;
      ExecuteInv(c, s, sched[..|sched| - 1], m);
      StepInv(c, m, sched[|sched| - 1], t);
    }
  }

  lemma ReachableInv(c: Config, s: State)
    requires c.Valid() && Reachable(c, s)
    ensures Inv(c, s)
  {
    var boot :| Initially(boot) && Reaches(c, boot, s);
    var sched :| Execute(c, boot, sched) == Some(s);
    InitialInv(c, boot);
    ExecuteInv(c, boot, sched, s);
  }

  // ---------- safety ----------

  /** With `mfence`, or on a sequentially consistent machine, main never comes to its check
      with both results zero, not even after the barrier counters have wrapped around. */
  lemma NeverDetected(c: Config, s: State)
    requires c.Valid() && Reachable(c, s) && (c.fence || !c.buffered)
    ensures s.main.detected == 0
    ensures s.main.pc == MCheck1 ==> s.mem.r1.val != 0 || s.mem.r2.val != 0
    ensures s.main.pc == MCheck2 ==> s.mem.r2.val != 0
  {
    ReachableInv(c, s);
  }

  /** No thread leaves a barrier before all have entered it, and none enters it again
      while another has still to leave it, as long as `start` has not wrapped. */
  lemma BarrierSafety(c: Config, s: State, t: Tid, u: Tid)
    requires c.Valid() && Reachable(c, s) && Unwrapped(c, s)
    ensures LeftStart(s, t) <= EnteredStart(s, u) <= LeftStart(s, t) + 1
    ensures LeftEnd(s, t) <= EnteredEnd(s, u) <= LeftEnd(s, t) + 1
  {
    ReachableInv(c, s);
    assert Counted(Skel(s), Starts(s), Ends(s));
    assert Level(c, Skel(s), Starts(s), Ends(s));
    match (t, u)
    case (Main, _) =>
    case (One, _) =>
    case (Two, _) =>
  }

  /** What main checks was written in this round, and nothing is still on its way. */
  lemma CheckIsFresh(c: Config, s: State)
    requires c.Valid() && Reachable(c, s) && Unwrapped(c, s)
    requires s.main.pc == MCheck1 || s.main.pc == MCheck2
    ensures s.mem.x == Word(1, s.main.iter) && s.mem.y == Word(1, s.main.iter)
    ensures s.mem.r1.stamp == s.mem.r2.stamp == s.main.iter
    ensures s.mem.r1.val == s.one.reg && s.mem.r2.val == s.two.reg
    ensures s.main.buf == s.one.buf == s.two.buf == []
  {
    ReachableInv(c, s);
    PhasesDisjoint(c, Skel(s));
    assert Gather(c, Skel(s));
  }

  /** When a worker is about to store, main's zero of this round is already in memory. */
  lemma ZeroBeforeStore(c: Config, s: State)
    requires c.Valid() && Reachable(c, s) && Unwrapped(c, s)
    ensures s.one.pc == WStore ==> s.mem.x == Word(0, s.one.iter) && s.main.iter == s.one.iter && s.main.buf == []
    ensures s.two.pc == WStore ==> s.mem.y == Word(0, s.two.iter) && s.main.iter == s.two.iter && s.main.buf == []
  {
    ReachableInv(c, s);
    if s.one.pc == WStore || s.two.pc == WStore {
      assert Running(c, Skel(s));
      RunningSameIter(c, s);
    }
  }

  // ---------- progress ----------

  /** A step other than a failed spin. */
  predicate Productive(c: Config, s: State, a: Action, t: State)
    requires c.Valid()
  {
    Next(c, s, a) == Some(t) && t != s
  }

  ghost predicate CanProceed(c: Config, s: State)
    requires c.Valid()
  {
    exists a, t :: Productive(c, s, a, t)
  }

  function WorkerIndex(pc: WorkerPc): nat {
    match pc
    case WEnterStart => 0
    case WSpinStart => 1
    case WStore => 2
    case WFence => 3
    case WLoad => 4
    case WSave => 5
    case WEnterEnd => 6
    case WSpinEnd => 7
  }

  function MasterIndex(pc: MainPc): nat {
    match pc
    case MZeroX => 0
    case MZeroY => 1
    case MEnterStart => 2
    case MSpinStart => 3
    case MEnterEnd => 4
    case MSpinEnd => 5
    case MCheck1 => 6
    case MCheck2 => 7
  }

  function WorkerClock(w: Worker): int {
    24 * w.iter + 3 * WorkerIndex(w.pc) - |w.buf|
  }

  function MasterClock(p: Master): int {
    24 * p.iter + 3 * MasterIndex(p.pc) - |p.buf|
  }

  /** Grows with every productive step. */
  function Clock(s: State): int {
    MasterClock(s.main) + WorkerClock(s.one) + WorkerClock(s.two)
  }

  lemma WorkerTicks(c: Config, mem: Memory, w: Worker, mine: Loc, other: Loc, result: Loc, mem': Memory, w': Worker)
    requires c.Valid() && WorkerStep(c, mem, w, mine, other, result) == Some((mem', w'))
    ensures WorkerClock(w) < WorkerClock(w') || (mem' == mem && w' == w)
  {
  }

  lemma ClockTicks(c: Config, s: State, a: Action, t: State)
    requires c.Valid() && Productive(c, s, a, t)
    ensures Clock(s) < Clock(t)
  {
    match a
    case Exec(Main) =>
    case Exec(One) => WorkerTicks(c, s.mem, s.one, X, Y, R1, t.mem, t.one);
    case Exec(Two) => WorkerTicks(c, s.mem, s.two, Y, X, R2, t.mem, t.two);
    case Flush(_) =>
  }

  /** All three threads wait at `start` for a value that cannot come any more. */
  predicate Deadlocked(s: State) {
    s.mem.start == 2 && s.main.pc == MSpinStart && s.one.pc == s.two.pc == WSpinStart
  }

  /** The only states without a step other than failed spins are those in which the counter has
      wrapped and all three threads wait at `start` with the counter at 2. */
  lemma DeadlockIff(c: Config, s: State)
    requires c.Valid() && Reachable(c, s)
    ensures CanProceed(c, s) <==> !Deadlocked(s)
  {
    ReachableInv(c, s);
    InvDeadlock(c, s);
  }

  /** Until the counter wraps, some thread can always make a step that is not a failed spin. */
  lemma Progress(c: Config, s: State)
    requires c.Valid() && Reachable(c, s) && Unwrapped(c, s)
    ensures CanProceed(c, s)
  {
    DeadlockIff(c, s);
    UnwrappedAlive(c, s) by { ReachableInv(c, s); }
  }

  lemma UnwrappedAlive(c: Config, s: State)
    requires c.Valid() && Inv(c, s) && Unwrapped(c, s)
    ensures !Deadlocked(s)
  {
    LevelAlive(c, Skel(s), Starts(s), Ends(s));
  }

  lemma LevelAlive(c: Config, k: Skeleton, starts: Tally, ends: Tally)
    requires c.Valid() && Level(c, k, starts, ends)
    ensures !(k.start == 2 && k.main == k.one == k.two == AtStart)
  {
  }

  lemma InvDeadlock(c: Config, s: State)
    requires c.Valid() && Inv(c, s)
    ensures CanProceed(c, s) <==> !Deadlocked(s)
  {
    if s.main.buf != [] {
      assert Productive(c, s, Flush(Main), Next(c, s, Flush(Main)).value);
    } else if s.one.buf != [] {
      assert Productive(c, s, Flush(One), Next(c, s, Flush(One)).value);
    } else if s.two.buf != [] {
      assert Productive(c, s, Flush(Two), Next(c, s, Flush(Two)).value);
    } else if Deadlocked(s) {
      assert forall a :: Next(c, s, a).Some? ==> Next(c, s, a).value == s;
    } else {
      var t := ReadyThread(c, s);
      assert Productive(c, s, Exec(t), Next(c, s, Exec(t)).value);
    }
  }

  lemma ReadyThread(c: Config, s: State) returns (t: Tid)
    requires c.Valid() && s.main.buf == s.one.buf == s.two.buf == []
    requires Phases(c, Skel(s)) && !Deadlocked(s)
    ensures Next(c, s, Exec(t)).Some? && Next(c, s, Exec(t)).value != s
  {
    var k := Skel(s);
    if Running(c, k) {
      t := if k.main != AtEnd then Main else if k.one != AtEnd then One else Two;
    } else {
      t := if k.main != AtStart then Main else if k.one != AtStart then One else Two;
    }
  }

  /** A run without failed spins. */
  ghost predicate Busy(c: Config, s: State, sched: seq<Action>, t: State)
    requires c.Valid()
    decreases |sched|
  {
    if sched == [] then s == t
    else exists m :: Productive(c, s, sched[0], m) && Busy(c, m, sched[1..], t)
  }

  lemma {:induction false} BusyInv(c: Config, s: State, sched: seq<Action>, t: State)
    requires c.Valid() && Inv(c, s) && Busy(c, s, sched, t)
    ensures Inv(c, t) && Clock(t) >= Clock(s) + |sched|
    decreases |sched|
  {
    if sched != [] {
      var m :| Productive(c, s, sched[0], m) && Busy(c, m, sched[1..], t);
      StepInv(c, s, sched[0], m);
      ClockTicks(c, s, sched[0], m);
      BusyInv(c, m, sched[1..], t);
    }
  }

  lemma ClockFromRunning(c: Config, s: State)
    requires c.Valid() && Buffers(c, s) && Running(c, Skel(s)) && SameIter(s)
    ensures 72 * s.main.iter - 6 <= Clock(s) <= 72 * s.main.iter + 75
  {
    InRound(c, s.one, X, R1);
    InRound(c, s.two, Y, R2);
  }

  lemma ClockFromGather(c: Config, s: State)
    requires c.Valid() && Buffers(c, s) && Gather(c, Skel(s)) && Ends(s).Each(Ends(s).main)
    ensures 72 * s.main.iter - 6 <= Clock(s) <= 72 * s.main.iter + 75
  {
  }

  /** Within one of main's rounds the clock stays in a window of fixed width. */
  lemma RoundWindow(c: Config, s: State)
    requires c.Valid() && Inv(c, s) && Unwrapped(c, s)
    ensures 72 * s.main.iter - 6 <= Clock(s) <= 72 * s.main.iter + 75
  {
    assert Level(c, Skel(s), Starts(s), Ends(s));
    if Running(c, Skel(s)) {
      RunningSameIter(c, s);
      ClockFromRunning(c, s);
    } else {
      ClockFromGather(c, s);
    }
  }

  lemma InRound(c: Config, w: Worker, mine: Loc, result: Loc)
    requires WorkerBuf(c, w, mine, result)
    ensures 24 * w.iter <= WorkerClock(w) <= 24 * w.iter + 21
  {
  }

  /** However the threads are scheduled, main finishes each round: no run makes more than
      81 productive steps without main's iteration counter advancing. */
  lemma RoundsComplete(c: Config, s: State, sched: seq<Action>, t: State)
    requires c.Valid() && Reachable(c, s) && Busy(c, s, sched, t) && Unwrapped(c, s) && Unwrapped(c, t)
    requires |sched| > 81
    ensures t.main.iter > s.main.iter
  {
    ReachableInv(c, s);
    BusyInv(c, s, sched, t);
    RoundWindow(c, s);
    RoundWindow(c, t);
  }
}

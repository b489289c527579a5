/**
  Main's rounds end at any time, wrapped counters or not: as long as main stays in one
  iteration the workers can only leave the end barrier a few times, and then nothing is left
  to do but for main to go on.
 */
module ReorderRounds {
  import opened Wrappers
  import opened ReorderMachine
  import opened ReorderInvariant
  import opened ReorderTheorems

  /** How many workers wait at `end`. */
  function AtEndNow(k: Skeleton): nat {
    (if k.one == AtEnd then 1 else 0) + (if k.two == AtEnd then 1 else 0)
  }

  /** How often the workers can still leave `end` before main's next iteration; `after` says
      that main has entered `end` in this one. */
  function Laps(c: Config, k: Skeleton, after: bool): nat
    requires c.Valid()
  {
    var last := if k.end == c.Modulus() - 1 then 1 else 0;
    if Gather(c, k) then AtEndNow(k) + last + (if after then 0 else 3)
    else if Running(c, k) then 3
    else if k.Count(Between) == 0 && k.start > 0 then AtEndNow(k)
    else if k.main == Between || (k.main == AtStart && k.Count(Between) == 0) then AtEndNow(k)
    else AtEndNow(k) + (if after then 1 else 4)
  }

  /** `after` agrees with where main stands. */
  predicate Fits(k: Skeleton, after: bool) {
    && (k.main == AtEnd ==> after)
    && (k.main == AtStart || k.main == Between ==> !after)
  }

  lemma LapsBounded(c: Config, k: Skeleton, after: bool)
    requires c.Valid() && Phases(c, k)
    ensures Laps(c, k, after) <= 6
  {
  }

  lemma GatherLaps(c: Config, k: Skeleton, t: Tid, k': Skeleton, after: bool, after': bool)
    requires c.Valid() && Gather(c, k) && Moves(c, k, t, k') && Fits(k, after) && Fits(k', after')
    requires after' == after
    ensures Laps(c, k', after') + (if t != Main && k.At(t) == AtEnd then 1 else 0) <= Laps(c, k, after)
  {
    GatherMoves(c, k, t, k');
    PhasesDisjoint(c, k');
    match t
    case Main =>
    case One =>
    case Two =>
  }

  lemma RunningLaps(c: Config, k: Skeleton, t: Tid, k': Skeleton, after: bool, after': bool)
    requires c.Valid() && Running(c, k) && Moves(c, k, t, k') && Fits(k, after) && Fits(k', after')
    requires after' == (after || (t == Main && k.main == Between))
    ensures Laps(c, k', after') + (if t != Main && k.At(t) == AtEnd then 1 else 0) <= Laps(c, k, after)
  {
    RunningMoves(c, k, t, k');
    PhasesDisjoint(c, k);
    PhasesDisjoint(c, k');
    match t
    case Main =>
    case One =>
    case Two =>
  }

  lemma SoloLaps(c: Config, k: Skeleton, u: Tid, t: Tid, k': Skeleton, after: bool, after': bool)
    requires c.Valid() && Solo(c, k, u) && Moves(c, k, t, k') && Fits(k, after) && Fits(k', after')
    requires after' == (after || (t == Main && k.main == Between))
    ensures Laps(c, k', after') + (if t != Main && k.At(t) == AtEnd then 1 else 0) <= Laps(c, k, after)
  {
    SoloMoves(c, k, u, t, k');
    PhasesDisjoint(c, k);
    PhasesDisjoint(c, k');
    match t
    case Main =>
    case One =>
    case Two =>
  }

  lemma MoveLaps(c: Config, k: Skeleton, t: Tid, k': Skeleton, after: bool, after': bool)
    requires c.Valid() && Phases(c, k) && Moves(c, k, t, k') && Fits(k, after) && Fits(k', after')
    requires after' == (after || (t == Main && k.main == Between))
    ensures Laps(c, k', after') + (if t != Main && k.At(t) == AtEnd then 1 else 0) <= Laps(c, k, after)
  {
    if Gather(c, k) {
      GatherLaps(c, k, t, k', after, after');
    } else if Running(c, k) {
      RunningLaps(c, k, t, k', after, after');
    } else {
      var u := if Solo(c, k, Main) then Main else if Solo(c, k, One) then One else Two;
      SoloLaps(c, k, u, t, k', after, after');
    }
  }

  // ---------- runs within one iteration of main ----------

  function LapsOf(c: Config, s: State): nat
    requires c.Valid()
  {
    Laps(c, Skel(s), Checking(s.main.pc))
  }

  /** What a step is for main's iteration, the workers' iterations and main's place. */
  lemma StepIters(c: Config, s: State, a: Action, m: State)
    requires c.Valid() && Next(c, s, a) == Some(m)
    ensures m.main.iter >= s.main.iter
    ensures m.one.iter + m.two.iter == s.one.iter + s.two.iter
              + (if Skel(m) != Skel(s) && a.t != Main && Skel(s).At(a.t) == AtEnd then 1 else 0)
    ensures m.main.iter == s.main.iter ==>
              (Checking(m.main.pc) <==> Checking(s.main.pc) || (Skel(m) != Skel(s) && a.t == Main && Skel(s).main == Between))
  {
    match a
    case Exec(Main) =>
    case Exec(One) =>
    case Exec(Two) =>
    case Flush(_) =>
  }

  lemma StepLaps(c: Config, s: State, a: Action, m: State)
    requires c.Valid() && Phases(c, Skel(s)) && Next(c, s, a) == Some(m) && m.main.iter == s.main.iter
    ensures m.one.iter + m.two.iter + LapsOf(c, m) <= s.one.iter + s.two.iter + LapsOf(c, s)
  {
    StepIters(c, s, a, m);
    StepMoves(c, s, a, m);
    if Skel(m) != Skel(s) {
      MoveLaps(c, Skel(s), a.t, Skel(m), Checking(s.main.pc), Checking(m.main.pc));
    }
  }

  lemma {:induction false} MainNeverBack(c: Config, s: State, sched: seq<Action>, t: State)
    requires c.Valid() && Busy(c, s, sched, t)
    ensures t.main.iter >= s.main.iter
    decreases |sched|
  {
    if sched != [] {
      var m :| Productive(c, s, sched[0], m) && Busy(c, m, sched[1..], t);
      StepIters(c, s, sched[0], m);
      MainNeverBack(c, m, sched[1..], t);
    }
  }

  lemma {:induction false} RunLaps(c: Config, s: State, sched: seq<Action>, t: State)
    requires c.Valid() && Inv(c, s) && Busy(c, s, sched, t) && t.main.iter == s.main.iter
    ensures t.one.iter + t.two.iter + LapsOf(c, t) <= s.one.iter + s.two.iter + LapsOf(c, s)
    decreases |sched|
  {
    if sched != [] {
      var m :| Productive(c, s, sched[0], m) && Busy(c, m, sched[1..], t);
      StepIters(c, s, sched[0], m);
      MainNeverBack(c, m, sched[1..], t);
      StepInv(c, s, sched[0], m);
      StepLaps(c, s, sched[0], m);
      RunLaps(c, m, sched[1..], t);
    }
  }

  lemma ClockByIters(c: Config, s: State)
    requires c.Valid() && Buffers(c, s)
    ensures 0 <= Clock(s) - 24 * (s.main.iter + s.one.iter + s.two.iter) <= 63
  {
  }

  /** Whatever has wrapped, and however the threads are scheduled, main finishes each round: no
      run makes more than 207 productive steps without main's iteration counter advancing. */
  lemma RoundsAlwaysComplete(c: Config, s: State, sched: seq<Action>, t: State)
    requires c.Valid() && Reachable(c, s) && Busy(c, s, sched, t) && |sched| > 207
    ensures t.main.iter > s.main.iter
  {
    ReachableInv(c, s);
    BusyInv(c, s, sched, t);
    MainNeverBack(c, s, sched, t);
    if t.main.iter == s.main.iter {
      RunLaps(c, s, sched, t);
      LapsBounded(c, Skel(s), Checking(s.main.pc));
      ClockByIters(c, s);
      ClockByIters(c, t);
    }
  }
}

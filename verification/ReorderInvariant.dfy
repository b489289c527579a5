/**
  One inductive invariant for the whole experiment: where the two barrier counters stand,
  what the store buffers hold, and what memory holds.  It survives the wrap-around of the
  counters, after which one thread goes through both barriers alone (`Solo`).
 */
module ReorderInvariant {
  import opened Wrappers
  import opened ReorderMachine

  // ---------- positions relative to the two barriers ----------

  datatype Stage = Outside | AtStart | Between | AtEnd

  function WorkerStage(pc: WorkerPc): Stage {
    match pc
    case WEnterStart => Outside
    case WSpinStart => AtStart
    case WSpinEnd => AtEnd
    case _ => Between
  }

  function MasterStage(pc: MainPc): Stage {
    match pc
    case MSpinStart => AtStart
    case MEnterEnd => Between
    case MSpinEnd => AtEnd
    case _ => Outside
  }

  /** The barrier counters and where each thread stands between them. */
  datatype Skeleton = Skeleton(start: nat, end: nat, main: Stage, one: Stage, two: Stage) {
    function At(t: Tid): Stage {
      match t
      case Main => main
      case One => one
      case Two => two
    }

    function Count(g: Stage): nat {
      (if main == g then 1 else 0) + (if one == g then 1 else 0) + (if two == g then 1 else 0)
    }
  }

  function Skel(s: State): Skeleton {
    Skeleton(s.mem.start, s.mem.end, MasterStage(s.main.pc), WorkerStage(s.one.pc), WorkerStage(s.two.pc))
  }

  /** Only `t` moves, from one stage to the next, as the counters allow. */
  predicate Moves(c: Config, k: Skeleton, t: Tid, k': Skeleton)
    requires c.Valid()
  {
    && (t != Main ==> k'.main == k.main)
    && (t != One ==> k'.one == k.one)
    && (t != Two ==> k'.two == k.two)
    && match k.At(t)
       case Outside => k'.At(t) == AtStart && k'.start == Increment(c, k.start) && k'.end == k.end
       case AtStart => k'.At(t) == Between && k.start % 3 == 0 && k'.start == k.start && k'.end == k.end
       case Between => k'.At(t) == AtEnd && k'.start == k.start && k'.end == Increment(c, k.end)
       case AtEnd => k'.At(t) == Outside && k.end % 3 == 0 && k'.start == k.start && k'.end == k.end
  }

  lemma StepMoves(c: Config, s: State, a: Action, s': State)
    requires c.Valid() && Next(c, s, a) == Some(s')
    ensures Skel(s') == Skel(s) || (a.Exec? && Moves(c, Skel(s), a.t, Skel(s')))
  {
  }

  // ---------- the counters ----------

  /** Threads collect at the start barrier; nobody is between the barriers. */
  predicate Gather(c: Config, k: Skeleton)
    requires c.Valid()
  {
    && k.end % 3 == 0
    && k.Count(Between) == 0
    && k.Count(AtStart) <= 2
    && k.start == k.end + k.Count(AtStart) < c.Modulus()
  }

  /** All three have entered the start barrier; they collect at the end barrier. */
  predicate Running(c: Config, k: Skeleton)
    requires c.Valid()
  {
    && k.start % 3 == 0
    && k.Count(Outside) == 0
    && k.Count(AtEnd) <= 2
    && k.end + 3 - k.Count(AtEnd) == k.start < c.Modulus()
  }

  /** `t` has wrapped `start` to 0 and may go through alone. */
  predicate Solo(c: Config, k: Skeleton, t: Tid)
    requires c.Valid()
  {
    && k.end == c.Modulus() - 1
    && (k.At(t) == AtStart || k.At(t) == Between)
    && k.Count(Between) == (if k.At(t) == Between then 1 else 0)
    && k.start == k.Count(AtStart) - (if k.At(t) == AtStart then 1 else 0)
  }

  predicate Phases(c: Config, k: Skeleton)
    requires c.Valid()
  {
    Gather(c, k) || Running(c, k) || Solo(c, k, Main) || Solo(c, k, One) || Solo(c, k, Two)
  }

  lemma Remainder(x: nat, n: nat)
    requires x % 3 == 0 && n < 3
    ensures (x + n) % 3 == n
  {
  }

  lemma GatherMoves(c: Config, k: Skeleton, t: Tid, k': Skeleton)
    requires c.Valid() && Gather(c, k) && Moves(c, k, t, k')
    ensures k.At(t) == AtEnd || k.At(t) == Outside
    ensures k.At(t) == AtEnd ==> Gather(c, k')
    ensures k.At(t) == Outside ==>
              if k.start + 1 == c.Modulus() then Solo(c, k', t)
              else if k.Count(AtStart) == 2 then Running(c, k')
              else Gather(c, k')
  {
    var n := k.Count(AtStart);
    Remainder(k.end, n);
    GatherCounts(k, t, k', n);
    if n == 2 {
      assert (k.start + 1) % 3 == 0;
    }
  }

  /** How a move changes the number of threads at `start`, when nobody is between the barriers. */
  lemma GatherCounts(k: Skeleton, t: Tid, k': Skeleton, n: nat)
    requires k.Count(Between) == 0 && n == k.Count(AtStart)
    requires (t != Main ==> k'.main == k.main) && (t != One ==> k'.one == k.one) && (t != Two ==> k'.two == k.two)
    ensures k.At(t) != Between && (k.At(t) == AtStart ==> n > 0)
    ensures k.At(t) == AtEnd && k'.At(t) == Outside ==> k'.Count(AtStart) == n && k'.Count(Between) == 0
    ensures k.At(t) == Outside && k'.At(t) == AtStart ==>
              k'.Count(AtStart) == n + 1 && k'.Count(Between) == 0 && (n == 2 ==> k'.Count(Outside) == 0 && k'.Count(AtEnd) == 0)
  {
    match t
    case Main =>
    case One =>
    case Two =>
  }

  lemma RunningMoves(c: Config, k: Skeleton, t: Tid, k': Skeleton)
    requires c.Valid() && Running(c, k) && Moves(c, k, t, k')
    ensures k.At(t) == AtStart || k.At(t) == Between
    ensures if k.At(t) == Between && k.Count(AtEnd) == 2 then Gather(c, k') else Running(c, k')
  {
    match t
    case Main =>
    case One =>
    case Two =>
  }

  lemma SoloMoves(c: Config, k: Skeleton, u: Tid, t: Tid, k': Skeleton)
    requires c.Valid() && Solo(c, k, u) && Moves(c, k, t, k')
    ensures t != u ==> k.At(t) == Outside || k.At(t) == AtEnd
    ensures if t == u && k.At(u) == Between then Gather(c, k') && k'.end == 0 else Solo(c, k', u)
  {
    match t
    case Main =>
    case One =>
    case Two =>
  }

  lemma PhasesDisjoint(c: Config, k: Skeleton)
    requires c.Valid()
    ensures !(Gather(c, k) && Running(c, k))
    ensures forall t :: Solo(c, k, t) ==> !Gather(c, k) && !Running(c, k)
    ensures forall t, u :: Solo(c, k, t) && Solo(c, k, u) ==> t == u || k.At(t) == AtStart == k.At(u)
  {
  }

  // ---------- the store buffers ----------

  predicate WorkerBuf(c: Config, w: Worker, mine: Loc, result: Loc) {
    var first := Entry(mine, Word(1, w.iter));
    var second := Entry(result, Word(w.reg, w.iter));
    && w.iter >= 1
    && (!c.buffered ==> w.buf == [])
    && match w.pc
       case WFence => w.buf == [] || w.buf == [first]
       case WLoad => w.buf == [] || (!c.fence && w.buf == [first])
       case WSave => w.buf == [] || (!c.fence && w.buf == [first])
       case WEnterEnd => w.buf == [] || w.buf == [second] || (!c.fence && w.buf == [first, second])
       case _ => w.buf == []
  }

  predicate MasterBuf(c: Config, p: Master) {
    var zeroX := Entry(X, Word(0, p.iter));
    var zeroY := Entry(Y, Word(0, p.iter));
    && p.iter >= 1
    && (!c.buffered ==> p.buf == [])
    && match p.pc
       case MZeroY => p.buf == [] || p.buf == [zeroX]
       case MEnterStart => p.buf == [] || p.buf == [zeroY] || p.buf == [zeroX, zeroY]
       case _ => p.buf == []
  }

  predicate Buffers(c: Config, s: State) {
    MasterBuf(c, s.main) && WorkerBuf(c, s.one, X, R1) && WorkerBuf(c, s.two, Y, R2)
  }

  // ---------- no reordering, with a fence or without buffers ----------

  predicate Strong(c: Config) {
    c.fence || !c.buffered
  }

  predicate Checking(pc: MainPc) {
    pc == MSpinEnd || pc == MCheck1 || pc == MCheck2
  }

  /** What main must find when it comes to its check. */
  predicate Verdict(s: State) {
    if s.main.pc == MCheck2 then s.mem.r2.val != 0
    else Checking(s.main.pc) ==> s.mem.r1.val != 0 || s.mem.r2.val != 0
  }

  predicate Stored(w: Worker) {
    w.pc in {WLoad, WSave, WEnterEnd, WSpinEnd} || (w.pc == WFence && w.buf == [])
  }

  predicate Loaded(w: Worker) {
    w.pc in {WSave, WEnterEnd, WSpinEnd}
  }

  predicate Saved(w: Worker) {
    w.pc == WSpinEnd || (w.pc == WEnterEnd && w.buf == [])
  }

  predicate RunningData(s: State) {
    && (Stored(s.one) ==> s.mem.x.val == 1)
    && (Stored(s.two) ==> s.mem.y.val == 1)
    && (Loaded(s.one) && Loaded(s.two) ==> s.one.reg == 1 || s.two.reg == 1)
    && (Saved(s.one) ==> s.mem.r1.val == s.one.reg)
    && (Saved(s.two) ==> s.mem.r2.val == s.two.reg)
  }

  predicate SomeOne(s: State) {
    s.mem.r1.val != 0 || s.mem.r2.val != 0
  }

  predicate BothStored(s: State) {
    s.mem.x.val == 1 && s.mem.y.val == 1
  }

  predicate GatherData(c: Config, s: State)
    requires c.Valid()
  {
    && Verdict(s)
    && (s.mem.end == c.Modulus() - 1 ==> SomeOne(s) && (Checking(s.main.pc) ==> BothStored(s)))
  }

  /** While `t` is alone: what it loads is 1 unless main is past its check. */
  predicate SoloData(s: State, t: Tid) {
    && (Skel(s).At(t) == AtStart || t == Main ==> SomeOne(s))
    && (t != Main ==> Verdict(s))
    && (t != Main && Checking(s.main.pc) ==> BothStored(s))
    && (t == One && Checking(s.main.pc) && Loaded(s.one) ==> s.one.reg == 1)
    && (t == Two && Checking(s.main.pc) && Loaded(s.two) ==> s.two.reg == 1)
  }

  predicate NoReorder(c: Config, s: State)
    requires c.Valid()
  {
    && s.main.detected == 0
    && (Running(c, Skel(s)) ==> RunningData(s))
    && (Gather(c, Skel(s)) ==> GatherData(c, s))
    && (forall t :: Solo(c, Skel(s), t) ==> SoloData(s, t))
  }

  // ---------- rounds, until a counter wraps ----------

  /** How often a thread has entered and left each barrier. */
  function EnteredStart(s: State, t: Tid): int {
    match t
    case Main => s.main.iter - (if s.main.pc in {MZeroX, MZeroY, MEnterStart} then 1 else 0)
    case One => s.one.iter - (if s.one.pc == WEnterStart then 1 else 0)
    case Two => s.two.iter - (if s.two.pc == WEnterStart then 1 else 0)
  }

  function LeftStart(s: State, t: Tid): int {
    match t
    case Main => s.main.iter - (if s.main.pc in {MZeroX, MZeroY, MEnterStart, MSpinStart} then 1 else 0)
    case One => s.one.iter - (if s.one.pc in {WEnterStart, WSpinStart} then 1 else 0)
    case Two => s.two.iter - (if s.two.pc in {WEnterStart, WSpinStart} then 1 else 0)
  }

  function EnteredEnd(s: State, t: Tid): int {
    match t
    case Main => s.main.iter - (if Checking(s.main.pc) then 0 else 1)
    case One => s.one.iter - (if s.one.pc == WSpinEnd then 0 else 1)
    case Two => s.two.iter - (if s.two.pc == WSpinEnd then 0 else 1)
  }

  function LeftEnd(s: State, t: Tid): int {
    match t
    case Main => s.main.iter - (if s.main.pc in {MCheck1, MCheck2} then 0 else 1)
    case One => s.one.iter - 1
    case Two => s.two.iter - 1
  }

  /** How often each thread has entered each barrier. */
  datatype Tally = Tally(main: int, one: int, two: int) {
    /** One more for `t`. */
    function Bump(t: Tid): Tally {
      match t
      case Main => this.(main := main + 1)
      case One => this.(one := one + 1)
      case Two => this.(two := two + 1)
    }

    predicate Each(n: int) {
      main == one == two == n
    }
  }

  function Starts(s: State): Tally {
    Tally(EnteredStart(s, Main), EnteredStart(s, One), EnteredStart(s, Two))
  }

  function Ends(s: State): Tally {
    Tally(EnteredEnd(s, Main), EnteredEnd(s, One), EnteredEnd(s, Two))
  }

  function TotalStarts(s: State): int {
    EnteredStart(s, Main) + EnteredStart(s, One) + EnteredStart(s, Two)
  }

  /** `start` has not wrapped: fewer than 2^bits entries so far. */
  predicate Unwrapped(c: Config, s: State)
    requires c.Valid()
  {
    TotalStarts(s) < c.Modulus()
  }

  /** A thread that is in the round has entered the start barrier once more than the end barrier. */
  predicate Ahead(g: Stage, started: int, ended: int) {
    if g == AtStart || g == Between then started == ended + 1 else started == ended
  }

  /** The counters are the tallies of the entries. */
  predicate Counted(k: Skeleton, starts: Tally, ends: Tally) {
    && k.start == starts.main + starts.one + starts.two
    && k.end == ends.main + ends.one + ends.two
    && Ahead(k.main, starts.main, ends.main)
    && Ahead(k.one, starts.one, ends.one)
    && Ahead(k.two, starts.two, ends.two)
  }

  /** All threads have entered equally often the barrier that is not filling up. */
  predicate Level(c: Config, k: Skeleton, starts: Tally, ends: Tally)
    requires c.Valid()
  {
    && (Gather(c, k) || Running(c, k))
    && (Gather(c, k) ==> ends.Each(ends.main))
    && (Running(c, k) ==> starts.Each(starts.main))
  }

  predicate Tallied(c: Config, k: Skeleton, starts: Tally, ends: Tally)
    requires c.Valid()
  {
    Counted(k, starts, ends) && Level(c, k, starts, ends)
  }

  predicate Rounds(c: Config, s: State)
    requires c.Valid()
  {
    Tallied(c, Skel(s), Starts(s), Ends(s))
  }

  /** The worker's variable holds main's zero until the worker's own store arrives. */
  predicate FreshVariable(v: Word, w: Worker, mine: Loc) {
    if w.pc in {WSpinStart, WStore} || (w.buf != [] && w.buf[0].loc == mine)
    then v == Word(0, w.iter)
    else v == Word(1, w.iter)
  }

  predicate FreshRunning(s: State) {
    && FreshVariable(s.mem.x, s.one, X)
    && FreshVariable(s.mem.y, s.two, Y)
    && (Saved(s.one) ==> s.mem.r1 == Word(s.one.reg, s.one.iter))
    && (Saved(s.two) ==> s.mem.r2 == Word(s.two.reg, s.two.iter))
  }

  predicate FreshGather(s: State) {
    var i := s.main.iter;
    && (Checking(s.main.pc) ==>
         && s.mem.x == Word(1, i) && s.mem.y == Word(1, i)
         && s.mem.r1 == Word(s.one.reg, i) && s.mem.r2 == Word(s.two.reg, i))
    && (s.main.pc == MZeroY && s.main.buf == [] ==> s.mem.x == Word(0, i))
    && (s.main.pc in {MEnterStart, MSpinStart} && |s.main.buf| <= 1 ==> s.mem.x == Word(0, i))
    && (s.main.pc in {MEnterStart, MSpinStart} && |s.main.buf| == 0 ==> s.mem.y == Word(0, i))
  }

  predicate FreshData(c: Config, s: State)
    requires c.Valid()
  {
    && (Gather(c, Skel(s)) ==> FreshGather(s))
    && (Running(c, Skel(s)) ==> FreshRunning(s))
  }

  predicate Fresh(c: Config, s: State)
    requires c.Valid()
  {
    Rounds(c, s) && FreshData(c, s)
  }

  // ---------- the invariant ----------

  predicate Inv(c: Config, s: State)
    requires c.Valid()
  {
    && Buffers(c, s)
    && Phases(c, Skel(s))
    && (Strong(c) ==> NoReorder(c, s))
    && (Unwrapped(c, s) ==> Fresh(c, s))
  }

  /** The invariant holds at the top of every round that has all its rounds behind it. */
  lemma TopInv(c: Config, s: State, n: nat)
    requires c.Valid() && 3 * n < c.Modulus() - 1
    requires Skel(s) == Skeleton(3 * n, 3 * n, Outside, Outside, Outside)
    requires s.main.pc == MZeroX && s.main.buf == [] && s.main.detected == 0
    requires s.one.buf == [] && s.two.buf == []
    requires s.main.iter == s.one.iter == s.two.iter == n + 1
    ensures Inv(c, s)
  {
    PhasesDisjoint(c, Skel(s));
  }

  lemma InitialInv(c: Config, s: State)
    requires c.Valid() && Initially(s)
    ensures Inv(c, s)
  {
    TopInv(c, s, 0);
  }

  lemma StepBuffers(c: Config, s: State, a: Action, s': State)
    requires c.Valid() && Buffers(c, s) && Next(c, s, a) == Some(s')
    ensures Buffers(c, s')
  {
  }

  lemma StepPhases(c: Config, s: State, a: Action, s': State)
    requires c.Valid() && Phases(c, Skel(s)) && Next(c, s, a) == Some(s')
    ensures Phases(c, Skel(s'))
  {
    StepMoves(c, s, a, s');
    if Skel(s') != Skel(s) {
      PhasesMove(c, Skel(s), a.t, Skel(s'));
    }
  }

  lemma PhasesMove(c: Config, k: Skeleton, t: Tid, k': Skeleton)
    requires c.Valid() && Phases(c, k) && Moves(c, k, t, k')
    ensures Phases(c, k')
  {
    if Gather(c, k) {
      GatherMoves(c, k, t, k');
    } else if Running(c, k) {
      RunningMoves(c, k, t, k');
    } else {
      var u :| Solo(c, k, u);
      SoloMoves(c, k, u, t, k');
    }
  }

  /** A worker never has a buffered store to the variable it loads. */
  lemma LoadFromMemory(c: Config, w: Worker, mem: Memory, mine: Loc, result: Loc, other: Loc)
    requires WorkerBuf(c, w, mine, result) && mine != other && result != other && w.pc == WLoad
    ensures Load(w.buf, mem, other) == mem.Get(other)
  {
  }

  lemma RunningStep(c: Config, s: State, a: Action, s': State)
    requires c.Valid() && Buffers(c, s) && Next(c, s, a) == Some(s') && Strong(c)
    requires Running(c, Skel(s)) && NoReorder(c, s)
    ensures NoReorder(c, s')
  {
    StepMoves(c, s, a, s');
    if Skel(s') != Skel(s) {
      RunningMoves(c, Skel(s), a.t, Skel(s'));
    }
    PhasesDisjoint(c, Skel(s'));
    match a
    case Exec(Main) =>
    case Exec(One) => RunningOne(c, s, s');
    case Exec(Two) => RunningTwo(c, s, s');
    case Flush(_) => RunningFlush(c, s, a, s');
  }

  lemma RunningOne(c: Config, s: State, s': State)
    requires c.Valid() && Buffers(c, s) && Next(c, s, Exec(One)) == Some(s') && Strong(c)
    requires Running(c, Skel(s)) && RunningData(s)
    requires Running(c, Skel(s')) || Gather(c, Skel(s'))
    ensures Running(c, Skel(s')) ==> RunningData(s')
    ensures Gather(c, Skel(s')) ==> GatherData(c, s')
  {
    if s.one.pc == WLoad {
      LoadFromMemory(c, s.one, s.mem, X, R1, Y);
    }
  }

  lemma RunningTwo(c: Config, s: State, s': State)
    requires c.Valid() && Buffers(c, s) && Next(c, s, Exec(Two)) == Some(s') && Strong(c)
    requires Running(c, Skel(s)) && RunningData(s)
    requires Running(c, Skel(s')) || Gather(c, Skel(s'))
    ensures Running(c, Skel(s')) ==> RunningData(s')
    ensures Gather(c, Skel(s')) ==> GatherData(c, s')
  {
    if s.two.pc == WLoad {
      LoadFromMemory(c, s.two, s.mem, Y, R2, X);
    }
  }

  lemma RunningFlush(c: Config, s: State, a: Action, s': State)
    requires c.Valid() && Buffers(c, s) && Next(c, s, a) == Some(s') && a.Flush? && Strong(c)
    requires Running(c, Skel(s)) && RunningData(s)
    ensures RunningData(s')
  {
  }

  lemma GatherStep(c: Config, s: State, a: Action, s': State)
    requires c.Valid() && Buffers(c, s) && Next(c, s, a) == Some(s') && Strong(c)
    requires Gather(c, Skel(s)) && NoReorder(c, s)
    ensures NoReorder(c, s')
  {
    StepMoves(c, s, a, s');
    if Skel(s') != Skel(s) {
      GatherMoves(c, Skel(s), a.t, Skel(s'));
    }
    PhasesDisjoint(c, Skel(s'));
    if a == Exec(Main) {
      GatherMain(c, s, s');
    } else {
      GatherOthers(c, s, a, s');
    }
  }

  /** The workers wait or enter, and only main has anything to flush. */
  lemma GatherOthers(c: Config, s: State, a: Action, s': State)
    requires c.Valid() && Buffers(c, s) && Next(c, s, a) == Some(s') && a != Exec(Main) && Gather(c, Skel(s))
    ensures s'.mem.r1 == s.mem.r1 && s'.mem.r2 == s.mem.r2 && s'.mem.end == s.mem.end
    ensures s'.main.pc == s.main.pc && s'.main.detected == s.main.detected
    ensures Checking(s.main.pc) ==> s'.mem.x == s.mem.x && s'.mem.y == s.mem.y
  {
    match a
    case Exec(One) =>
    case Exec(Two) =>
    case Flush(_) =>
  }

  lemma GatherMain(c: Config, s: State, s': State)
    requires c.Valid() && Buffers(c, s) && Next(c, s, Exec(Main)) == Some(s') && Strong(c)
    requires Gather(c, Skel(s)) && GatherData(c, s)
    ensures s'.main.detected == s.main.detected
    ensures s.main.pc != MEnterStart ==> GatherData(c, s')
  {
  }

  lemma SoloStep(c: Config, s: State, u: Tid, a: Action, s': State)
    requires c.Valid() && Buffers(c, s) && Next(c, s, a) == Some(s') && Strong(c)
    requires Solo(c, Skel(s), u) && NoReorder(c, s)
    ensures NoReorder(c, s')
  {
    StepMoves(c, s, a, s');
    if Skel(s') != Skel(s) {
      SoloMoves(c, Skel(s), u, a.t, Skel(s'));
    }
    PhasesDisjoint(c, Skel(s'));
    match a
    case Exec(Main) => SoloMain(c, s, u, s');
    case Exec(One) => SoloWorker(c, s, u, a, s');
    case Exec(Two) => SoloWorker(c, s, u, a, s');
    case Flush(_) => SoloFlush(c, s, u, a, s');
  }

  lemma SoloMain(c: Config, s: State, u: Tid, s': State)
    requires c.Valid() && Buffers(c, s) && Next(c, s, Exec(Main)) == Some(s') && Strong(c)
    requires Solo(c, Skel(s), u) && NoReorder(c, s)
    requires !Running(c, Skel(s'))
    requires Gather(c, Skel(s')) ==> s'.mem.end == 0
    ensures NoReorder(c, s')
  {
  }

  lemma SoloWorker(c: Config, s: State, u: Tid, a: Action, s': State)
    requires c.Valid() && Buffers(c, s) && Next(c, s, a) == Some(s') && Strong(c)
    requires a == Exec(One) || a == Exec(Two)
    requires Solo(c, Skel(s), u) && NoReorder(c, s)
    requires !Running(c, Skel(s'))
    requires Gather(c, Skel(s')) ==> s'.mem.end == 0
    ensures NoReorder(c, s')
  {
  }

  lemma SoloFlush(c: Config, s: State, u: Tid, a: Action, s': State)
    requires c.Valid() && Buffers(c, s) && Next(c, s, a) == Some(s') && a.Flush? && Strong(c)
    requires Solo(c, Skel(s), u) && NoReorder(c, s)
    requires !Running(c, Skel(s')) && !Gather(c, Skel(s'))
    ensures NoReorder(c, s')
  {
  }

  lemma StepNoReorder(c: Config, s: State, a: Action, s': State)
    requires c.Valid() && Buffers(c, s) && Phases(c, Skel(s)) && Next(c, s, a) == Some(s')
    requires Strong(c) && NoReorder(c, s)
    ensures NoReorder(c, s')
  {
    if Running(c, Skel(s)) {
      RunningStep(c, s, a, s');
    } else if Gather(c, Skel(s)) {
      GatherStep(c, s, a, s');
    } else {
      var u :| Solo(c, Skel(s), u);
      SoloStep(c, s, u, a, s');
    }
  }

  /** Each step that enters a barrier is tallied; no other step is. */
  lemma StepTallies(c: Config, s: State, a: Action, s': State)
    requires c.Valid() && Next(c, s, a) == Some(s')
    ensures Starts(s') == if Skel(s') != Skel(s) && Skel(s).At(a.t) == Outside then Starts(s).Bump(a.t) else Starts(s)
    ensures Ends(s') == if Skel(s') != Skel(s) && Skel(s).At(a.t) == Between then Ends(s).Bump(a.t) else Ends(s)
  {
    match a
    case Exec(Main) =>
    case Exec(One) =>
    case Exec(Two) =>
    case Flush(_) =>
  }

  lemma StepRounds(c: Config, s: State, a: Action, s': State)
    requires c.Valid() && Next(c, s, a) == Some(s')
    requires Rounds(c, s) && Unwrapped(c, s')
    ensures Rounds(c, s')
  {
    StepMoves(c, s, a, s');
    StepTallies(c, s, a, s');
    TalliedStep(c, Skel(s), Starts(s), Ends(s), a.t, Skel(s'), Starts(s'), Ends(s'));
  }

  lemma TalliedStep(c: Config, k: Skeleton, starts: Tally, ends: Tally, t: Tid, k': Skeleton, starts': Tally, ends': Tally)
    requires c.Valid() && Tallied(c, k, starts, ends) && (k' == k || Moves(c, k, t, k'))
    requires starts' == if k' != k && k.At(t) == Outside then starts.Bump(t) else starts
    requires ends' == if k' != k && k.At(t) == Between then ends.Bump(t) else ends
    requires starts'.main + starts'.one + starts'.two < c.Modulus()
    ensures Tallied(c, k', starts', ends')
  {
    if k' != k {
      TalliedMove(c, k, starts, ends, t, k');
    }
  }

  lemma TalliedMove(c: Config, k: Skeleton, starts: Tally, ends: Tally, t: Tid, k': Skeleton)
    requires c.Valid() && Tallied(c, k, starts, ends) && Moves(c, k, t, k')
    requires k.At(t) == Outside ==> starts.main + starts.one + starts.two + 1 < c.Modulus()
    ensures Tallied(c, k', if k.At(t) == Outside then starts.Bump(t) else starts,
                           if k.At(t) == Between then ends.Bump(t) else ends)
  {
    PhasesDisjoint(c, k);
    PhasesDisjoint(c, k');
    if Gather(c, k) {
      GatherMoves(c, k, t, k');
    } else {
      RunningMoves(c, k, t, k');
    }
    match t
    case Main =>
    case One =>
    case Two =>
  }

  /** While all three are in the round, they agree on which round it is. */
  predicate SameIter(s: State) {
    s.main.iter == s.one.iter == s.two.iter
  }

  lemma RunningSameIter(c: Config, s: State)
    requires c.Valid() && Rounds(c, s) && Running(c, Skel(s))
    ensures SameIter(s)
  {
  }

  lemma StepFresh(c: Config, s: State, a: Action, s': State)
    requires c.Valid() && Buffers(c, s) && Next(c, s, a) == Some(s')
    requires Fresh(c, s) && Rounds(c, s')
    ensures Fresh(c, s')
  {
    StepMoves(c, s, a, s');
    if Skel(s') != Skel(s) {
      if Gather(c, Skel(s)) {
        GatherMoves(c, Skel(s), a.t, Skel(s'));
      } else {
        RunningMoves(c, Skel(s), a.t, Skel(s'));
      }
    }
    PhasesDisjoint(c, Skel(s'));
    PhasesDisjoint(c, Skel(s));
    if Running(c, Skel(s')) {
      RunningSameIter(c, s');
    }
    if Running(c, Skel(s)) {
      RunningSameIter(c, s);
      FreshFromRunning(c, s, a, s');
    } else {
      FreshFromGather(c, s, a, s');
    }
  }

  lemma FreshFromGather(c: Config, s: State, a: Action, s': State)
    requires c.Valid() && Buffers(c, s) && Next(c, s, a) == Some(s')
    requires Gather(c, Skel(s)) && FreshGather(s)
    requires Running(c, Skel(s')) ==> SameIter(s') && !Gather(c, Skel(s'))
    ensures FreshData(c, s')
  {
    match a
    case Exec(Main) =>
    case Exec(One) =>
    case Exec(Two) =>
    case Flush(_) =>
  }

  lemma FreshFromRunning(c: Config, s: State, a: Action, s': State)
    requires c.Valid() && Buffers(c, s) && Next(c, s, a) == Some(s')
    requires Running(c, Skel(s)) && FreshRunning(s) && SameIter(s)
    requires Gather(c, Skel(s')) ==> !Running(c, Skel(s'))
    ensures FreshData(c, s')
  {
    match a
    case Exec(Main) => FreshRunningMain(c, s, s');
    case Exec(One) => FreshRunningOne(c, s, s');
    case Exec(Two) => FreshRunningTwo(c, s, s');
    case Flush(_) => FreshRunningFlush(c, s, a, s');
  }

  lemma FreshRunningMain(c: Config, s: State, s': State)
    requires c.Valid() && Buffers(c, s) && Next(c, s, Exec(Main)) == Some(s')
    requires Running(c, Skel(s)) && FreshRunning(s) && SameIter(s)
    requires Gather(c, Skel(s')) ==> !Running(c, Skel(s'))
    ensures FreshData(c, s')
  {
  }

  lemma FreshRunningFlush(c: Config, s: State, a: Action, s': State)
    requires c.Valid() && Buffers(c, s) && Next(c, s, a) == Some(s') && a.Flush?
    requires Running(c, Skel(s)) && FreshRunning(s) && SameIter(s)
    requires Gather(c, Skel(s')) ==> !Running(c, Skel(s'))
    ensures FreshData(c, s')
  {
    assert Skel(s') == Skel(s);
  }

  lemma FreshRunningOne(c: Config, s: State, s': State)
    requires c.Valid() && Buffers(c, s) && Next(c, s, Exec(One)) == Some(s')
    requires Running(c, Skel(s)) && FreshRunning(s) && SameIter(s)
    requires Gather(c, Skel(s')) ==> !Running(c, Skel(s'))
    ensures FreshData(c, s')
  {
  }

  lemma FreshRunningTwo(c: Config, s: State, s': State)
    requires c.Valid() && Buffers(c, s) && Next(c, s, Exec(Two)) == Some(s')
    requires Running(c, Skel(s)) && FreshRunning(s) && SameIter(s)
    requires Gather(c, Skel(s')) ==> !Running(c, Skel(s'))
    ensures FreshData(c, s')
  {
  }

  lemma StepInv(c: Config, s: State, a: Action, s': State)
    requires c.Valid() && Inv(c, s) && Next(c, s, a) == Some(s')
    ensures Inv(c, s')
  {
    StepBuffers(c, s, a, s');
    StepPhases(c, s, a, s');
    if Strong(c) {
      StepNoReorder(c, s, a, s');
    }
    if Unwrapped(c, s') {
      StepMoves(c, s, a, s');
      StepTallies(c, s, a, s');
      StepRounds(c, s, a, s');
      StepFresh(c, s, a, s');
    }
  }
}

/**
  The store/load reordering experiment of c/reorder/reorder.c as a transition system.

  Three threads run on a machine in the style of x86-TSO: shared memory, a FIFO store
  buffer per thread, loads that see the youngest own buffered store first, and locked
  read-modify-writes and `mfence` that wait for the own buffer to drain.  Every source
  access is one step, in program order; all interleavings are allowed.
 */
module ReorderMachine {
  import opened Wrappers

  /** `fence` is USE_CPU_FENCE; `buffered` is false for a sequentially consistent machine;
      `bits` is the width of `unsigned long`. */
  datatype Config = Config(fence: bool, buffered: bool, bits: nat) {
    predicate Valid() {
      bits >= 2 && bits % 2 == 0
    }

    function Modulus(): (m: nat)
      requires Valid()
      ensures m >= 4 && m % 3 == 1
    {
      Pow2Even(bits);
      Pow2(bits)
    }
  }

  function Pow2(n: nat): nat {
    if n == 0 then 1 else 2 * Pow2(n - 1)
  }

  lemma {:induction false} Pow2Even(n: nat)
    requires n >= 2 && n % 2 == 0
    ensures Pow2(n) >= 4 && Pow2(n) % 3 == 1
  {
    var p := Pow2(n - 2);
    assert Pow2(n) == 2 * Pow2(n - 1) && Pow2(n - 1) == 2 * p;
    if n == 2 {
      assert p == 1;
    } else {
      Pow2Even(n - 2);
      FourTimes(p);
    }
  }

  lemma FourTimes(p: nat)
    requires p % 3 == 1
    ensures (4 * p) % 3 == 1
  {
  }

  /** A stored value, stamped with the storing thread's loop iteration.  The stamp is
      history: no instruction looks at it. */
  datatype Word = Word(val: int, stamp: nat)

  datatype Loc = X | Y | R1 | R2

  datatype Entry = Entry(loc: Loc, word: Word)

  /** The globals of the program.  Only locked instructions write `start` and `end`. */
  datatype Memory = Memory(x: Word, y: Word, r1: Word, r2: Word, start: nat, end: nat) {
    function Get(l: Loc): Word {
      match l
      case X => x
      case Y => y
      case R1 => r1
      case R2 => r2
    }

    function Put(e: Entry): Memory {
      match e.loc
      case X => this.(x := e.word)
      case Y => this.(y := e.word)
      case R1 => this.(r1 := e.word)
      case R2 => this.(r2 := e.word)
    }
  }

  /** The value a load of `l` sees: the youngest own buffered store, else memory. */
  function Load(buf: seq<Entry>, mem: Memory, l: Loc): Word {
    if buf == [] then mem.Get(l)
    else if buf[|buf| - 1].loc == l then buf[|buf| - 1].word
    else Load(buf[..|buf| - 1], mem, l)
  }

  /** A thread reads its own youngest store to the location, ... */
  lemma {:induction false} LoadForwards(older: seq<Entry>, e: Entry, younger: seq<Entry>, mem: Memory)
    requires forall k :: 0 <= k < |younger| ==> younger[k].loc != e.loc
    ensures Load(older + [e] + younger, mem, e.loc) == e.word
    decreases |younger|
  {
    var buf := older + [e] + younger;
    if younger == [] {
      assert buf[|buf| - 1] == e;
    } else {
      var m := |younger| - 1;
      LoadForwards(older, e, younger[..m], mem);
      assert buf[|buf| - 1] == younger[m];
      assert buf[..|buf| - 1] == older + [e] + younger[..m];
    }
  }

  /** ... and memory if it has none on its way. */
  lemma {:induction false} LoadFromMem(buf: seq<Entry>, mem: Memory, l: Loc)
    requires forall k :: 0 <= k < |buf| ==> buf[k].loc != l
    ensures Load(buf, mem, l) == mem.Get(l)
  {
    if buf != [] {
      LoadFromMem(buf[..|buf| - 1], mem, l);
    }
  }

  datatype WorkerPc =
    WEnterStart | WSpinStart | WStore | WFence | WLoad | WSave | WEnterEnd | WSpinEnd

  datatype MainPc =
    MZeroX | MZeroY | MEnterStart | MSpinStart | MEnterEnd | MSpinEnd | MCheck1 | MCheck2

  /** `iter` counts loop iterations from 1; `reg` is the value last loaded. */
  datatype Worker = Worker(pc: WorkerPc, iter: nat, reg: int, buf: seq<Entry>)

  /** `iter` is the variable `i` of `main`. */
  datatype Master = Master(pc: MainPc, iter: nat, detected: nat, buf: seq<Entry>)

  datatype Tid = Main | One | Two

  datatype State = State(mem: Memory, main: Master, one: Worker, two: Worker)

  /** Either run the thread's next instruction, or let its oldest store reach memory. */
  datatype Action = Exec(t: Tid) | Flush(t: Tid)

  /** Globals are zero, and every thread is at the top of its first iteration. */
  predicate Initially(s: State) {
    && s.mem.x.val == s.mem.y.val == s.mem.r1.val == s.mem.r2.val == 0
    && s.mem.start == s.mem.end == 0
    && s.main.pc == MZeroX && s.main.iter == 1 && s.main.detected == 0 && s.main.buf == []
    && s.one.pc == WEnterStart && s.one.iter == 1 && s.one.buf == []
    && s.two.pc == WEnterStart && s.two.iter == 1 && s.two.buf == []
  }

  /** The effect of a store: (memory, buffer) afterwards. */
  function Emit(c: Config, mem: Memory, buf: seq<Entry>, e: Entry): (Memory, seq<Entry>) {
    if c.buffered then (mem, buf + [e]) else (mem.Put(e), buf)
  }

  /** Adding one to an `unsigned long`. */
  function Increment(c: Config, v: nat): nat
    requires c.Valid()
  {
    if v + 1 == c.Modulus() then 0 else v + 1
  }

  /** One instruction of a worker that stores to `mine`, loads `other` and saves into `result`. */
  function WorkerStep(c: Config, mem: Memory, w: Worker, mine: Loc, other: Loc, result: Loc): Option<(Memory, Worker)>
    requires c.Valid()
  {
    match w.pc
    case WEnterStart =>
      if w.buf != [] then None
      else Some((mem.(start := Increment(c, mem.start)), w.(pc := WSpinStart)))
    case WSpinStart =>
      Some((mem, if mem.start % 3 == 0 then w.(pc := WStore) else w))
    case WStore =>
      var (m, b) := Emit(c, mem, w.buf, Entry(mine, Word(1, w.iter)));
      Some((m, w.(pc := WFence, buf := b)))
    case WFence =>
      if c.fence && w.buf != [] then None else Some((mem, w.(pc := WLoad)))
    case WLoad =>
      Some((mem, w.(pc := WSave, reg := Load(w.buf, mem, other).val)))
    case WSave =>
      var (m, b) := Emit(c, mem, w.buf, Entry(result, Word(w.reg, w.iter)));
      Some((m, w.(pc := WEnterEnd, buf := b)))
    case WEnterEnd =>
      if w.buf != [] then None
      else Some((mem.(end := Increment(c, mem.end)), w.(pc := WSpinEnd)))
    case WSpinEnd =>
      Some((mem, if mem.end % 3 == 0 then w.(pc := WEnterStart, iter := w.iter + 1) else w))
  }

  /** One instruction of `main`. */
  function MainStep(c: Config, mem: Memory, p: Master): Option<(Memory, Master)>
    requires c.Valid()
  {
    match p.pc
    case MZeroX =>
      var (m, b) := Emit(c, mem, p.buf, Entry(X, Word(0, p.iter)));
      Some((m, p.(pc := MZeroY, buf := b)))
    case MZeroY =>
      var (m, b) := Emit(c, mem, p.buf, Entry(Y, Word(0, p.iter)));
      Some((m, p.(pc := MEnterStart, buf := b)))
    case MEnterStart =>
      if p.buf != [] then None
      else Some((mem.(start := Increment(c, mem.start)), p.(pc := MSpinStart)))
    case MSpinStart =>
      Some((mem, if mem.start % 3 == 0 then p.(pc := MEnterEnd) else p))
    case MEnterEnd =>
      if p.buf != [] then None
      else Some((mem.(end := Increment(c, mem.end)), p.(pc := MSpinEnd)))
    case MSpinEnd =>
      Some((mem, if mem.end % 3 == 0 then p.(pc := MCheck1) else p))
    case MCheck1 =>
      if Load(p.buf, mem, R1).val == 0 then Some((mem, p.(pc := MCheck2)))
      else Some((mem, p.(pc := MZeroX, iter := p.iter + 1)))
    case MCheck2 =>
      var hit := if Load(p.buf, mem, R2).val == 0 then 1 else 0;
      Some((mem, p.(pc := MZeroX, iter := p.iter + 1, detected := p.detected + hit)))
  }

  function Next(c: Config, s: State, a: Action): Option<State>
    requires c.Valid()
  {
    match a
    case Exec(Main) =>
      (match MainStep(c, s.mem, s.main)
       case None => None
       case Some((m, p)) => Some(s.(mem := m, main := p)))
    case Exec(One) =>
      (match WorkerStep(c, s.mem, s.one, X, Y, R1)
       case None => None
       case Some((m, w)) => Some(s.(mem := m, one := w)))
    case Exec(Two) =>
      (match WorkerStep(c, s.mem, s.two, Y, X, R2)
       case None => None
       case Some((m, w)) => Some(s.(mem := m, two := w)))
    case Flush(Main) =>
      if s.main.buf == [] then None
      else Some(s.(mem := s.mem.Put(s.main.buf[0]), main := s.main.(buf := s.main.buf[1..])))
    case Flush(One) =>
      if s.one.buf == [] then None
      else Some(s.(mem := s.mem.Put(s.one.buf[0]), one := s.one.(buf := s.one.buf[1..])))
    case Flush(Two) =>
      if s.two.buf == [] then None
      else Some(s.(mem := s.mem.Put(s.two.buf[0]), two := s.two.(buf := s.two.buf[1..])))
  }

  /** The state after a schedule, if every action in it was enabled. */
  function Execute(c: Config, s: State, sched: seq<Action>): Option<State>
    requires c.Valid()
  {
    if sched == [] then Some(s)
    else
      match Execute(c, s, sched[..|sched| - 1])
      case None => None
      case Some(m) => Next(c, m, sched[|sched| - 1])
  }

  /** The actions of a schedule that are enabled when their turn comes, if the others are left out. */
  function Enabled(c: Config, s: State, sched: seq<Action>): (r: seq<Action>)
    requires c.Valid()
    ensures |r| <= |sched| && Execute(c, s, r).Some?
  {
    if sched == [] then []
    else
      var before, a := Enabled(c, s, sched[..|sched| - 1]), sched[|sched| - 1];
      EnabledMore(c, s, before, a);
      if Next(c, Execute(c, s, before).value, a).Some? then before + [a] else before
  }

  lemma EnabledMore(c: Config, s: State, before: seq<Action>, a: Action)
    requires c.Valid() && Execute(c, s, before).Some?
    ensures Execute(c, s, before + [a]) == Next(c, Execute(c, s, before).value, a)
  {
    assert (before + [a])[..|before + [a]| - 1] == before;
  }

  lemma AllButLast<T>(s: seq<T>)
    requires s != []
    ensures s[..|s| - 1] + [s[|s| - 1]] == s
  {
  }

  /** Where nothing has to be left out, nothing is. */
  lemma {:induction false} AllEnabled(c: Config, s: State, sched: seq<Action>)
    requires c.Valid() && Execute(c, s, sched).Some?
    ensures Enabled(c, s, sched) == sched
  {
    if sched != [] {
      var init := sched[..|sched| - 1];
      AllEnabled(c, s, init);
      AllButLast(sched);
      assert Next(c, Execute(c, s, init).value, sched[|sched| - 1]).Some?;
    }
  }

  /** An action that cannot be taken is passed over. */
  lemma EnabledPrefix(c: Config, s: State, sched: seq<Action>, i: nat)
    requires c.Valid() && i < |sched|
    ensures var before := Enabled(c, s, sched[..i]);
            Enabled(c, s, sched[..i + 1]) == if Next(c, Execute(c, s, before).value, sched[i]).Some? then before + [sched[i]] else before
  {
    assert sched[..i + 1][..i] == sched[..i];
  }

  ghost predicate Reaches(c: Config, s: State, t: State)
    requires c.Valid()
  {
    exists sched :: Execute(c, s, sched) == Some(t)
  }

  ghost predicate Reachable(c: Config, s: State)
    requires c.Valid()
  {
    exists boot :: Initially(boot) && Reaches(c, boot, s)
  }

  lemma ReachesSelf(c: Config, s: State)
    requires c.Valid()
    ensures Reaches(c, s, s)
  {
    assert Execute(c, s, []) == Some(s);
  }

  lemma ReachesStep(c: Config, s: State, t: State, a: Action, u: State)
    requires c.Valid() && Reaches(c, s, t) && Next(c, t, a) == Some(u)
    ensures Reaches(c, s, u)
  {
    var sched :| Execute(c, s, sched) == Some(t);
    assert (sched + [a])[..|sched + [a]| - 1] == sched;
    assert Execute(c, s, sched + [a]) == Some(u);
  }
}

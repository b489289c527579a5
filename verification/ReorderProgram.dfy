/**
  The program itself: the globals and the three threads' registers and store buffers as
  mutable state, changed one machine step at a time under an arbitrary schedule.
 */
module ReorderProgram {
  import opened Wrappers
  import opened ReorderMachine
  import opened ReorderInvariant

  class Experiment {
    const config: Config
    var x: Word
    var y: Word
    var r1: Word
    var r2: Word
    var start: nat
    var end: nat
    var main: Master
    var one: Worker
    var two: Worker

    ghost predicate Valid()
      reads this
    {
      config.Valid()
    }

    function Mem(): Memory
      reads this
    {
      Memory(x, y, r1, r2, start, end)
    }

    function View(): State
      reads this
    {
      State(Mem(), main, one, two)
    }

    constructor (c: Config)
      requires c.Valid()
      ensures Valid() && config == c && Initially(View()) && Inv(c, View())
    {
      config := c;
      x, y, r1, r2 := Word(0, 0), Word(0, 0), Word(0, 0), Word(0, 0);
      start, end := 0, 0;
      main := Master(MZeroX, 1, 0, []);
      one, two := Worker(WEnterStart, 1, 0, []), Worker(WEnterStart, 1, 0, []);
      new;
      InitialInv(c, View());
    }

    /** A store reaches the globals. */
    method Write(e: Entry)
      requires Valid()
      modifies this`x, this`y, this`r1, this`r2
      ensures Mem() == old(Mem()).Put(e)
    {
      match e.loc
      case X => x := e.word;
      case Y => y := e.word;
      case R1 => r1 := e.word;
      case R2 => r2 := e.word;
    }

    /** The oldest buffered store of `t` reaches memory. */
    method Drain(t: Tid) returns (ok: bool)
      requires Valid()
      modifies this
      ensures ok == Next(config, old(View()), Flush(t)).Some?
      ensures View() == if ok then Next(config, old(View()), Flush(t)).value else old(View())
    {
      ok := (match t case Main => main.buf case One => one.buf case Two => two.buf) != [];
      if ok {
        match t {
          case Main =>
            Write(main.buf[0]);
            main := main.(buf := main.buf[1..]);
          case One =>
            Write(one.buf[0]);
            one := one.(buf := one.buf[1..]);
          case Two =>
            Write(two.buf[0]);
            two := two.(buf := two.buf[1..]);
        }
      }
    }

    /** `main` stores to `l`. */
    method MainStore(e: Entry)
      requires Valid()
      modifies this
      ensures Emit(config, old(Mem()), old(main.buf), e) == (Mem(), main.buf)
      ensures main == old(main).(buf := main.buf) && one == old(one) && two == old(two)
    {
      if config.buffered {
        main := main.(buf := main.buf + [e]);
      } else {
        Write(e);
      }
    }

    /** The next instruction of the loop in `main`. */
    method MainLoop() returns (ok: bool)
      requires Valid()
      modifies this
      ensures ok == Next(config, old(View()), Exec(Main)).Some?
      ensures View() == if ok then Next(config, old(View()), Exec(Main)).value else old(View())
    {
      ok := true;
      match main.pc {
        case MZeroX =>
          MainStore(Entry(X, Word(0, main.iter)));
          main := main.(pc := MZeroY);
        case MZeroY =>
          MainStore(Entry(Y, Word(0, main.iter)));
          main := main.(pc := MEnterStart);
        case MEnterStart =>
          ok := main.buf == [];
          if ok {
            start := Increment(config, start);
            main := main.(pc := MSpinStart);
          }
        case MSpinStart =>
          if start % 3 == 0 {
            main := main.(pc := MEnterEnd);
          }
        case MEnterEnd =>
          ok := main.buf == [];
          if ok {
            end := Increment(config, end);
            main := main.(pc := MSpinEnd);
          }
        case MSpinEnd =>
          if end % 3 == 0 {
            main := main.(pc := MCheck1);
          }
        case MCheck1 =>
          if Load(main.buf, Mem(), R1).val == 0 {
            main := main.(pc := MCheck2);
          } else {
            main := main.(pc := MZeroX, iter := main.iter + 1);
          }
        case MCheck2 =>
          if Load(main.buf, Mem(), R2).val == 0 {
            main := main.(detected := main.detected + 1);
          }
          main := main.(pc := MZeroX, iter := main.iter + 1);
      }
    }

    /** The next instruction of a worker's loop; the caller stores the thread back. */
    method WorkerLoop(w: Worker, mine: Loc, other: Loc, result: Loc) returns (ok: bool, v: Worker)
      requires Valid()
      modifies this`x, this`y, this`r1, this`r2, this`start, this`end
      ensures ok == WorkerStep(config, old(Mem()), w, mine, other, result).Some?
      ensures ok ==> WorkerStep(config, old(Mem()), w, mine, other, result) == Some((Mem(), v))
      ensures !ok ==> Mem() == old(Mem())
    {
      ok, v := true, w;
      match w.pc {
        case WEnterStart =>
          ok := w.buf == [];
          if ok {
            start := Increment(config, start);
            v := w.(pc := WSpinStart);
          }
        case WSpinStart =>
          if start % 3 == 0 {
            v := w.(pc := WStore);
          }
        case WStore =>
          v := WorkerStore(w, Entry(mine, Word(1, w.iter)));
          v := v.(pc := WFence);
        case WFence =>
          ok := !(config.fence && w.buf != []);
          if ok {
            v := w.(pc := WLoad);
          }
        case WLoad =>
          v := w.(pc := WSave, reg := Load(w.buf, Mem(), other).val);
        case WSave =>
          v := WorkerStore(w, Entry(result, Word(w.reg, w.iter)));
          v := v.(pc := WEnterEnd);
        case WEnterEnd =>
          ok := w.buf == [];
          if ok {
            end := Increment(config, end);
            v := w.(pc := WSpinEnd);
          }
        case WSpinEnd =>
          if end % 3 == 0 {
            v := w.(pc := WEnterStart, iter := w.iter + 1);
          }
      }
    }

    method WorkerStore(w: Worker, e: Entry) returns (v: Worker)
      requires Valid()
      modifies this`x, this`y, this`r1, this`r2
      ensures Emit(config, old(Mem()), w.buf, e) == (Mem(), v.buf) && v == w.(buf := v.buf)
    {
      v := w;
      if config.buffered {
        v := w.(buf := w.buf + [e]);
      } else {
        Write(e);
      }
    }

    /** One step of the whole system. */
    method Step(a: Action) returns (ok: bool)
      requires Valid()
      modifies this
      ensures ok == Next(config, old(View()), a).Some?
      ensures View() == if ok then Next(config, old(View()), a).value else old(View())
    {
      match a {
        case Flush(t) =>
          ok := Drain(t);
        case Exec(Main) =>
          ok := MainLoop();
        case Exec(One) =>
          var w;
          ok, w := WorkerLoop(one, X, Y, R1);
          if ok {
            one := w;
          }
        case Exec(Two) =>
          var w;
          ok, w := WorkerLoop(two, Y, X, R2);
          if ok {
            two := w;
          }
      }
    }

    /** Runs a schedule, leaving out what is not enabled when its turn comes, and nothing else;
        `taken` is what was not left out.  With the fence, or without store buffers, `detected`
        is still 0 whatever the schedule. */
    method Run(sched: seq<Action>) returns (ghost taken: seq<Action>)
      requires Valid() && Inv(config, View())
      modifies this
      ensures taken == Enabled(config, old(View()), sched) && Execute(config, old(View()), taken) == Some(View())
      ensures Execute(config, old(View()), sched).Some? ==> Execute(config, old(View()), sched) == Some(View())
      ensures Inv(config, View())
      ensures config.fence || !config.buffered ==> main.detected == 0
    {
      ghost var start := View();
      taken := [];
      assert sched[..0] == [];
      for i := 0 to |sched|
        invariant taken == Enabled(config, start, sched[..i]) && Execute(config, start, taken) == Some(View())
        invariant Inv(config, View())
      {
        ghost var before := View();
        EnabledPrefix(config, start, sched, i);
        EnabledMore(config, start, taken, sched[i]);
        var ok := Step(sched[i]);
        if ok {
          taken := taken + [sched[i]];
          StepInv(config, before, sched[i], View());
        }
      }
      assert sched[..|sched|] == sched;
      if Execute(config, start, sched).Some? {
        AllEnabled(config, start, sched);
      }
    }
  }
}

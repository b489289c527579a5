/**
  The program of both hosts over mutable resources: the fields are updated in place, one call
  at a time, and the network acts on them in between, under an arbitrary schedule.
 */
module ExchangeProgram {
  import opened Wrappers
  import opened Bytes
  import opened ExchangeWire
  import opened ExchangeMachine
  import opened ExchangeInvariant
  import opened ExchangeTheorems

  /** `struct resources` of one side, with what was written to and read from its socket. */
  class Resources {
    const role: Role
    var pc: Pc
    var status: Status
    var got: seq<byte>
    var sent: seq<byte>
    var nread: nat
    var remote: Option<ConData>
    var dest: Option<ConData>
    var qp: QpState
    var buf: string
    var sq: seq<Request>
    var rq: nat
    var cq: seq<Completion>
    var out: seq<string>

    function View(): Host
      reads this
    {
      Host(pc, status, got, sent, nread, remote, dest, qp, buf, sq, rq, cq, out)
    }

    /** resources_create: only the server puts the message in its buffer. */
    constructor (c: Config, r: Role)
      requires c.Valid()
      ensures role == r && View() == Initial(c).Of(r)
    {
      role := r;
      pc, status, got, sent, nread := ConSend, Running, [], [], 0;
      remote, dest, qp, sq, rq, cq, out := None, None, Reset, [], 0, [], [];
      buf := if r == Server then Strcpy(Zeros(BUF_SIZE), c.msg) else Zeros(BUF_SIZE);
    }

    method ModifyQpToInit() returns (ok: bool)
      modifies this`qp
      ensures ok == (old(qp) == Reset) && qp == if ok then Init else old(qp)
    {
      ok := qp == Reset;
      if ok { qp := Init; }
    }

    method ModifyQpToRtr(peer: Option<ConData>) returns (ok: bool)
      modifies this`qp, this`dest
      ensures ok == (old(qp) == Init)
      ensures if ok then qp == Rtr && dest == peer else qp == old(qp) && dest == old(dest)
    {
      ok := qp == Init;
      if ok { qp, dest := Rtr, peer; }
    }

    method ModifyQpToRts() returns (ok: bool)
      modifies this`qp
      ensures ok == (old(qp) == Rtr) && qp == if ok then Rts else old(qp)
    {
      ok := qp == Rtr;
      if ok { qp := Rts; }
    }

    method PostReceive() returns (ok: bool)
      modifies this`rq
      ensures ok == (old(rq) == 0 && qp != Reset) && rq == if ok then 1 else old(rq)
    {
      ok := rq == 0 && qp != Reset;
      if ok { rq := 1; }
    }

    method PostSend(op: Op) returns (ok: bool)
      modifies this`sq
      ensures ok == (old(sq) == [] && qp == Rts && remote.Some?)
      ensures sq == if ok then [Request(op, Posted, "")] else old(sq)
    {
      ok := sq == [] && qp == Rts && remote.Some?;
      if ok { sq := [Request(op, Posted, "")]; }
    }

    /** Takes the oldest entry off the completion queue; a bad status is a failure. */
    method PollCompletion() returns (ok: bool)
      modifies this`cq, this`status
      ensures ok == (old(cq) != [])
      ensures if ok then cq == old(cq)[1..] && status == (if old(cq)[0] == Success then old(status) else Failed)
              else cq == old(cq) && status == old(status)
    {
      ok := cq != [];
      if ok {
        if cq[0] != Success { status := Failed; }
        cq := cq[1..];
      }
    }

    method SendByte(b: byte) returns (ok: bool)
      modifies this`sent
      ensures ok && sent == old(sent) + [b]
    {
      sent := sent + [b];
      ok := true;
    }

    method ReadByte(peer: seq<byte>) returns (ok: bool)
      modifies this`nread
      ensures ok == (old(nread) < |peer|) && nread == if ok then old(nread) + 1 else old(nread)
    {
      ok := nread < |peer|;
      if ok { nread := nread + 1; }
    }

    method Print()
      modifies this`out
      ensures out == old(out) + [CString(buf)]
    {
      out := out + [CString(buf)];
    }

    /** connect_qp: the next call or assignment. */
    method ConnectQp(c: Config, peer: seq<byte>) returns (ok: bool)
      requires c.Valid() && Sized(View()) && status == Running && Idx(pc) <= 7
      modifies this
      ensures ok == HostStep(c, role, old(View()), peer).Some?
      ensures View() == if ok then HostStep(c, role, old(View()), peer).value else old(View())
    {
      ok := false;
      var next := NextPc(role, pc);
      match pc {
        case ConSend =>
          sent := sent + Encode(c.Props(role));
          ok := true;
        case ConRecv =>
        case ToInit => ok := ModifyQpToInit();
        case PostRecv => ok := PostReceive();
        case ToRtr => ok := ModifyQpToRtr(remote);
        case ToRts => ok := ModifyQpToRts();
        case QSend => ok := SendByte(QBYTE);
        case QRecv => ok := ReadByte(peer);
      }
      if ok { pc := next; }
    }

    /** The rest of `main`, up to the end of the message and its sync: the next call or assignment. */
    method Message(c: Config, peer: seq<byte>) returns (ok: bool)
      requires c.Valid() && Sized(View()) && status == Running && 7 < Idx(pc) <= 13
      modifies this
      ensures ok == MessageStep(c, role, old(View()), peer).Some?
      ensures View() == if ok then MessageStep(c, role, old(View()), peer).value else old(View())
    {
      ok := true;
      var next := NextPc(role, pc);
      match pc {
        case PostSend => ok := PostSend(Send);
        case Poll1 => ok := PollCompletion();
        case Print1 => Print();
        case Copy1 => buf := Strcpy(buf, c.forRead);
        case RSend => ok := SendByte(RBYTE);
        case RRecv => ok := ReadByte(peer);
      }
      if ok && status == Running { pc := next; }
    }

    /** The RDMA operations of the client: the next call or assignment. */
    method Rdma(c: Config, peer: seq<byte>) returns (ok: bool)
      requires c.Valid() && Sized(View()) && status == Running && 13 < Idx(pc) <= 19
      modifies this
      ensures ok == RdmaStep(c, role, old(View()), peer).Some?
      ensures View() == if ok then RdmaStep(c, role, old(View()), peer).value else old(View())
    {
      ok := true;
      var next := NextPc(role, pc);
      match pc {
        case PostRead => ok := PostSend(RdmaRead);
        case Poll2 => ok := PollCompletion();
        case Print2 => Print();
        case Copy2 => buf := Strcpy(buf, c.forWrite);
        case PostWrite => ok := PostSend(RdmaWrite);
        case Poll3 => ok := PollCompletion();
      }
      if ok && status == Running { pc := next; }
    }

    /** The last sync and what follows: the next call or assignment. */
    method LastSync(c: Config, peer: seq<byte>) returns (ok: bool)
      requires c.Valid() && Sized(View()) && status == Running && 19 < Idx(pc)
      modifies this
      ensures ok == LastStep(c, role, old(View()), peer).Some?
      ensures View() == if ok then LastStep(c, role, old(View()), peer).value else old(View())
    {
      ok := true;
      var next := NextPc(role, pc);
      match pc {
        case WSend => ok := SendByte(WBYTE);
        case WRecv => ok := ReadByte(peer);
        case Print3 => Print();
        case Done => ok := false;
      }
      if ok { pc := next; }
    }

    /** One read of the record's loop in `sock_sync_data`. */
    method ReceiveRecord(c: Config, peer: seq<byte>, closed: bool, n: nat) returns (ok: bool)
      modifies this
      ensures ok == ReadRecord(c, old(View()), peer, closed, n).Some?
      ensures View() == if ok then ReadRecord(c, old(View()), peer, closed, n).value else old(View())
    {
      ghost var h := View();
      ok := status == Running && pc == ConRecv && n != 0 && nread + n <= |peer| && n <= RECORD_SIZE
            && (c.shortReads || n == RECORD_SIZE || (closed && nread + n == |peer|));
      if ok {
        var all := got + peer[nread..nread + n];
        if |all| > RECORD_SIZE {
          status := Overrun;
          assert View() == h.(status := Overrun);
        } else if |all| < RECORD_SIZE {
          got, nread := all, nread + n;
          assert View() == h.(got := all, nread := h.nread + n);
        } else {
          got, nread := all, nread + n;
          remote := Some(Decode(got));
          pc := ToInit;
          assert View() == h.(got := all, nread := h.nread + n, remote := Some(Decode(all)), pc := ToInit);
        }
      }
    }

    // ---------- what the network does to one side ----------

    method Fetched() returns (ok: bool)
      modifies this`sq
      ensures ok == Fetch(old(View())).Some?
      ensures View() == if ok then Fetch(old(View())).value else old(View())
    {
      ok := status != Gone && qp == Rts && sq != [] && sq[0].progress == Posted;
      if ok {
        sq := [Request(sq[0].op, InFlight, if sq[0].op == RdmaRead then "" else buf)];
      }
    }

    /** The request acts on the other side. */
    method DeliveredTo(c: Config, p: Resources) returns (ok: bool)
      requires p != this
      modifies this`sq, p`buf, p`rq, p`cq
      ensures var d := Deliver(c, role, old(View()), old(p.View()));
              ok == d.Some? && (View(), p.View()) == if ok then d.value else (old(View()), old(p.View()))
    {
      ok := sq != [] && sq[0].progress == InFlight && Reaches(c, role, View(), p.View()) && (sq[0].op == Send ==> p.rq != 0);
      if ok {
        match sq[0].op {
          case Send => p.buf, p.rq, p.cq := sq[0].data, p.rq - 1, p.cq + [Success];
          case RdmaWrite => p.buf := sq[0].data;
          case RdmaRead =>
        }
        sq := [Request(sq[0].op, Delivered, if sq[0].op == RdmaRead then p.buf else sq[0].data)];
      }
    }

    method Completed() returns (ok: bool)
      modifies this`sq, this`cq, this`buf
      ensures ok == Complete(old(View())).Some?
      ensures View() == if ok then Complete(old(View())).value else old(View())
    {
      ok := status != Gone && sq != [] && sq[0].progress == Delivered;
      if ok {
        if sq[0].op == RdmaRead { buf := sq[0].data; }
        sq, cq := [], cq + [Success];
      }
    }

    method GivenUp() returns (ok: bool)
      modifies this`sq, this`cq, this`qp
      ensures ok == GiveUp(old(View())).Some?
      ensures View() == if ok then GiveUp(old(View())).value else old(View())
    {
      ok := status != Gone && sq != [];
      if ok { sq, cq, qp := [], cq + [Error], Broken; }
    }

    /** The next call fails, after `n` bytes of the record if that is what it was writing. */
    method Failing(c: Config, partial: bool, n: nat) returns (ok: bool)
      requires c.Valid()
      modifies this`status, this`sent
      ensures var h := old(View());
              ok == (h.status == Running && if partial then h.pc == ConSend && n < RECORD_SIZE else Calls(h.pc))
              && View() == if !ok then h else if partial then h.(status := Failed, sent := h.sent + Encode(c.Props(role))[..n])
                           else h.(status := Failed)
    {
      ok := status == Running && if partial then pc == ConSend && n < RECORD_SIZE else Calls(pc);
      if ok {
        if partial { sent := sent + Encode(c.Props(role))[..n]; }
        status := Failed;
      }
    }

    /** resources_destroy, after a failure or at the end. */
    method Destroyed() returns (ok: bool)
      modifies this`status
      ensures ok == (old(status) == Failed || (old(status) == Running && pc == Done))
      ensures status == if ok then Gone else old(status)
    {
      ok := status == Failed || (status == Running && pc == Done);
      if ok { status := Gone; }
    }
  }

  /** Both sides. */
  class Exchange {
    const config: Config
    const client: Resources
    const server: Resources

    ghost predicate Valid()
      reads this, client, server
    {
      && config.Valid() && client != server && client.role == Client && server.role == Server
      && Sized(client.View()) && Sized(server.View())
    }

    function View(): State
      reads this, client, server
    {
      State(client.View(), server.View())
    }

    function Of(r: Role): Resources {
      if r == Client then client else server
    }

    constructor (c: Config)
      requires c.Valid()
      ensures Valid() && config == c && View() == Initial(c)
      ensures fresh(client) && fresh(server)
    {
      config := c;
      client := new Resources(c, Client);
      server := new Resources(c, Server);
    }

    /** The next call of `r`. */
    method Call(r: Role) returns (ok: bool)
      requires Valid()
      modifies client, server
      ensures Valid()
      ensures ok == Next(config, old(View()), Act(r)).Some?
      ensures View() == if ok then Next(config, old(View()), Act(r)).value else old(View())
    {
      var h, peer := Of(r), Of(r.Peer()).sent;
      if h.status != Running {
        ok := false;
      } else if Idx(h.pc) <= 7 {
        ok := h.ConnectQp(config, peer);
      } else if Idx(h.pc) <= 13 {
        ok := h.Message(config, peer);
      } else if Idx(h.pc) <= 19 {
        ok := h.Rdma(config, peer);
      } else {
        ok := h.LastSync(config, peer);
      }
    }

    /** A read of `r` brings `n` bytes of the record. */
    method Receive(r: Role, n: nat) returns (ok: bool)
      requires Valid()
      modifies client, server
      ensures Valid()
      ensures ok == Next(config, old(View()), Read(r, n)).Some?
      ensures View() == if ok then Next(config, old(View()), Read(r, n)).value else old(View())
    {
      var p := Of(r.Peer());
      ok := Of(r).ReceiveRecord(config, p.sent, p.status == Gone, n);
    }

    /** A read of `r` returns 0: `nbytes_read` stays, and the loop goes round once more. */
    method ReadNothing(r: Role) returns (ok: bool)
      requires Valid()
      ensures ok == Next(config, View(), ZeroRead(r)).Some?
      ensures ok ==> Next(config, View(), ZeroRead(r)) == Some(View())
    {
      ok := Starved(Of(r).View(), Of(r.Peer()).View());
    }

    /** `r` fails or is done and gives up its resources. */
    method Stop(a: Action) returns (ok: bool)
      requires Valid() && (a.Fail? || a.FailSend? || a.Destroy?)
      modifies client, server
      ensures Valid()
      ensures ok == Next(config, old(View()), a).Some?
      ensures View() == if ok then Next(config, old(View()), a).value else old(View())
    {
      var h := Of(a.r);
      match a {
        case Fail(_) => ok := h.Failing(config, false, 0);
        case FailSend(_, n) => ok := h.Failing(config, true, n);
        case Destroy(_) => ok := h.Destroyed();
      }
    }

    /** The request of `r` acts on the other side. */
    method Arrive(r: Role) returns (ok: bool)
      requires Valid()
      modifies client, server
      ensures Valid()
      ensures ok == Next(config, old(View()), NetDeliver(r)).Some?
      ensures View() == if ok then Next(config, old(View()), NetDeliver(r)).value else old(View())
    {
      ok := Of(r).DeliveredTo(config, Of(r.Peer()));
    }

    /** Something happens to a request of `r` on its own side. */
    method Network(a: Action) returns (ok: bool)
      requires Valid() && (a.NetFetch? || a.NetComplete? || a.NetGiveUp?)
      modifies client, server
      ensures Valid()
      ensures ok == Next(config, old(View()), a).Some?
      ensures View() == if ok then Next(config, old(View()), a).value else old(View())
    {
      match a {
        case NetFetch(r) => ok := Of(r).Fetched();
        case NetComplete(r) => ok := Of(r).Completed();
        case NetGiveUp(r) => ok := Of(r).GivenUp();
      }
    }

    /** One step of the whole system. */
    method Step(a: Action) returns (ok: bool)
      requires Valid()
      modifies client, server
      ensures Valid()
      ensures ok == Next(config, old(View()), a).Some?
      ensures View() == if ok then Next(config, old(View()), a).value else old(View())
    {
      match a {
        case Act(r) => ok := Call(r);
        case Read(r, n) => ok := Receive(r, n);
        case ZeroRead(r) => ok := ReadNothing(r);
        case Fail(_) => ok := Stop(a);
        case FailSend(_, _) => ok := Stop(a);
        case Destroy(_) => ok := Stop(a);
        case NetDeliver(r) => ok := Arrive(r);
        case _ => ok := Network(a);
      }
    }

    /** Runs a schedule, leaving out what cannot happen when its turn comes, and nothing else;
        `taken` is what was not left out.  Nothing but the right texts is ever printed. */
    method Run(schedule: seq<Action>) returns (ghost taken: seq<Action>)
      requires Valid() && Inv(config, View())
      modifies client, server
      ensures Valid() && Inv(config, View())
      ensures taken == Enabled(config, old(View()), schedule) && Execute(config, old(View()), taken) == Some(View())
      ensures Execute(config, old(View()), schedule).Some? ==> Execute(config, old(View()), schedule) == Some(View())
      ensures client.out <= [config.msg, config.forRead] && server.out <= [config.forWrite]
    {
      ghost var start := View();
      assert schedule[0..] == schedule;
      for i := 0 to |schedule|
        invariant Valid() && Inv(config, View())
        invariant After(config, View(), schedule[i..]) == After(config, start, schedule)
      {
        ghost var before := View();
        assert schedule[i..][0] == schedule[i] && schedule[i..][1..] == schedule[i + 1..];
        var ok := Step(schedule[i]);
        if ok {
          StepInv(config, before, schedule[i], View());
        }
      }
      taken := Enabled(config, start, schedule);
      EnabledExecutes(config, start, schedule);
      if Execute(config, start, schedule).Some? {
        AllEnabled(config, start, schedule);
      }
      PrintedSoFar(config, View().client, View().server);
    }
  }
}

/**
  Runs of the exchange: but for reads that return 0 they are short; one in which nothing fails
  has no such reads and cannot stop before both sides have printed all they have to print; and
  the read loop overruns exactly where reads can be short.
 */
module ExchangeCompletion {
  import opened Wrappers
  import opened Bytes
  import opened ExchangeWire
  import opened ExchangeMachine
  import opened ExchangeInvariant
  import opened ExchangeTheorems

  // ---------- how long runs are ----------

  function Stage(sq: seq<Request>): nat {
    if sq == [] then 0
    else match sq[0].progress case Posted => 3 case InFlight => 2 case Delivered => 1
  }

  /** The steps a host can still take, and the network for it, at most. */
  function Left(h: Host): int {
    4 * (23 - Idx(h.pc)) + Stage(h.sq) + (RECORD_SIZE - |h.got|)
      + (match h.status case Running => 2 case Failed => 1 case Overrun => 1 case Gone => 0)
  }

  lemma Onward(r: Role, pc: Pc)
    requires pc != Done
    ensures Idx(pc) < Idx(NextPc(r, pc)) <= 23
  {
  }

  lemma HostSpends(c: Config, r: Role, h: Host, peer: seq<byte>, h': Host)
    requires c.Valid() && Sized(h) && Moved(c, r, h, peer, h')
    ensures Left(h') < Left(h)
  {
    assert h.pc != Done && h.status == Running;
    Onward(r, h.pc);
  }

  lemma ReadSpends(c: Config, h: Host, peer: seq<byte>, closed: bool, n: nat, h': Host)
    requires ReadRecord(c, h, peer, closed, n) == Some(h')
    ensures Left(h') < Left(h)
  {
  }

  lemma DeliverSpends(c: Config, r: Role, h: Host, p: Host, h': Host, p': Host)
    requires Deliver(c, r, h, p) == Some((h', p'))
    ensures Left(h') + Left(p') < Left(h) + Left(p)
  {
  }

  lemma QueueSpends(h: Host, h': Host)
    requires Fetch(h) == Some(h') || Complete(h) == Some(h') || GiveUp(h) == Some(h')
    ensures Left(h') < Left(h)
  {
  }

  lemma NetSpends(c: Config, s: State, a: Action, s': State)
    requires c.Valid() && Sized(s.client) && Sized(s.server) && !a.Act? && !a.ZeroRead? && Next(c, s, a) == Some(s')
    ensures Left(s'.Of(a.r)) + Left(s'.Of(a.r.Peer())) < Left(s.Of(a.r)) + Left(s.Of(a.r.Peer()))
  {
    var h, p, h', p' := s.Of(a.r), s.Of(a.r.Peer()), s'.Of(a.r), s'.Of(a.r.Peer());
    if a.Read? {
      ReadSpends(c, h, p.sent, p.status == Gone, a.n, h');
    } else if a.NetDeliver? {
      DeliverSpends(c, a.r, h, p, h', p');
    } else if a.NetFetch? || a.NetComplete? || a.NetGiveUp? {
      QueueSpends(h, h');
    }
  }

  lemma StepSpends(c: Config, s: State, a: Action, s': State)
    requires c.Valid() && Sized(s.client) && Sized(s.server) && !a.ZeroRead? && Next(c, s, a) == Some(s')
    ensures Left(s'.client) + Left(s'.server) < Left(s.client) + Left(s.server)
  {
    if a.Act? {
      HostSpends(c, a.r, s.Of(a.r), s.Of(a.r.Peer()).sent, s'.Of(a.r));
    } else {
      NetSpends(c, s, a, s');
    }
  }

  lemma LeftNonNegative(c: Config, s: State)
    requires c.Valid() && Local(c, Client, s.client) && Local(c, Server, s.server)
    ensures Left(s.client) >= 0 && Left(s.server) >= 0
  {
  }

  /** How many steps of a schedule are more than a read that returns 0. */
  function Work(schedule: seq<Action>): (n: nat)
    ensures n <= |schedule|
  {
    if schedule == [] then 0 else (if schedule[0].ZeroRead? then 0 else 1) + Work(schedule[1..])
  }

  lemma {:induction false} RunSpends(c: Config, s: State, schedule: seq<Action>, s': State)
    requires c.Valid() && Sized(s.client) && Sized(s.server) && Execute(c, s, schedule) == Some(s')
    ensures Left(s'.client) + Left(s'.server) + Work(schedule) <= Left(s.client) + Left(s.server)
    decreases |schedule|
  {
    if schedule != [] {
      var mid := Next(c, s, schedule[0]).value;
      if !schedule[0].ZeroRead? {
        StepSpends(c, s, schedule[0], mid);
      }
      RunSpends(c, mid, schedule[1..], s');
    }
  }

  /** No run has more than 256 steps other than reads that return 0. */
  lemma RunsBounded(c: Config, schedule: seq<Action>)
    requires c.Valid() && Execute(c, Initial(c), schedule).Some?
    ensures Work(schedule) <= 256
  {
    var s' := Execute(c, Initial(c), schedule).value;
    RunSpends(c, Initial(c), schedule, s');
    LeftNonNegative(c, s') by { ReachableInv(c, s'); }
  }

  // ---------- short reads ----------

  /** Without short reads nothing is overrun, and a record is there in full or not at all, or
      as far as a peer that has closed the connection has written it. */
  predicate Whole(c: Config, h: Host, p: Host) {
    c.shortReads ||
    (h.status != Overrun && (h.pc == ConRecv ==> h.got == [] || (p.status == Gone && h.nread == |p.sent|)))
  }

  predicate BothWhole(c: Config, s: State) {
    Whole(c, s.client, s.server) && Whole(c, s.server, s.client)
  }

  lemma HostWhole(c: Config, r: Role, h: Host, p: Host, h': Host)
    requires c.Valid() && Local(c, r, h) && Whole(c, h, p) && Whole(c, p, h) && Moved(c, r, h, p.sent, h')
    ensures Whole(c, h', p) && Whole(c, p, h')
  {
  }

  lemma ReadWhole(c: Config, r: Role, h: Host, p: Host, n: nat, h': Host)
    requires c.Valid() && Local(c, r, h) && Whole(c, h, p) && Whole(c, p, h)
    requires ReadRecord(c, h, p.sent, p.status == Gone, n) == Some(h')
    ensures Whole(c, h', p) && Whole(c, p, h')
  {
  }

  lemma DeliverWhole(c: Config, r: Role, h: Host, p: Host, h': Host, p': Host)
    requires Deliver(c, r, h, p) == Some((h', p')) && Whole(c, h, p) && Whole(c, p, h)
    ensures Whole(c, h', p') && Whole(c, p', h')
  {
  }

  lemma NetworkWhole(c: Config, s: State, a: Action, s': State)
    requires c.Valid() && Sized(s.client) && Sized(s.server) && BothWhole(c, s)
    requires Next(c, s, a) == Some(s') && !a.Act? && !a.Read? && !a.ZeroRead?
    ensures BothWhole(c, s')
  {
    var r, h, p := a.r, s.Of(a.r), s.Of(a.r.Peer());
    if a.NetDeliver? {
      DeliverWhole(c, r, h, p, s'.Of(r), s'.Of(r.Peer()));
    } else {
      assert s'.Of(r.Peer()) == p;
      assert Whole(c, s'.Of(r), p) && Whole(c, p, s'.Of(r));
    }
  }

  lemma StepWhole(c: Config, s: State, a: Action, s': State)
    requires c.Valid() && Local(c, Client, s.client) && Local(c, Server, s.server)
    requires BothWhole(c, s) && Next(c, s, a) == Some(s')
    ensures BothWhole(c, s')
  {
    var h, p, h' := s.Of(a.r), s.Of(a.r.Peer()), s'.Of(a.r);
    if a.Act? {
      HostWhole(c, a.r, h, p, h');
    } else if a.Read? {
      ReadWhole(c, a.r, h, p, a.n, h');
    } else if !a.ZeroRead? {
      NetworkWhole(c, s, a, s');
    }
  }

  lemma {:induction false} RunWhole(c: Config, s: State, schedule: seq<Action>, s': State)
    requires c.Valid() && Inv(c, s) && BothWhole(c, s) && Execute(c, s, schedule) == Some(s')
    ensures BothWhole(c, s')
    decreases |schedule|
  {
    if schedule != [] {
      var mid := Next(c, s, schedule[0]).value;
      StepInv(c, s, schedule[0], mid);
      StepWhole(c, s, schedule[0], mid);
      RunWhole(c, mid, schedule[1..], s');
    }
  }

  /** The state after one more step of a reachable state. */
  lemma Go(c: Config, s: State, a: Action) returns (s': State)
    requires c.Valid() && Reachable(c, s) && Sized(s.client) && Sized(s.server) && Next(c, s, a).Some?
    ensures Reachable(c, s') && Next(c, s, a) == Some(s') && Sized(s'.client) && Sized(s'.server)
  {
    s' := Next(c, s, a).value;
    LeadsToStep(c, Initial(c), s, a, s');
  }

  predicate ClientYetToRead(s: State) {
    && Sized(s.client) && Sized(s.server)
    && s.client.pc == ConRecv && s.client.status == Running && s.client.got == [] && s.client.nread == 0
  }

  /** At the start nothing has been sent or read. */
  predicate Fresh(h: Host) {
    h.pc == ConSend && h.status == Running && h.sent == [] && h.got == [] && h.nread == 0 && h.qp == Reset && Sized(h)
  }

  lemma Start(c: Config) returns (s: State)
    requires c.Valid()
    ensures Reachable(c, s) && Fresh(s.client) && Fresh(s.server)
  {
    s := Initial(c);
    LeadsToSelf(c, s);
  }

  lemma ClientHasSent(c: Config) returns (s: State)
    requires c.Valid()
    ensures Reachable(c, s) && ClientYetToRead(s) && |s.client.sent| == RECORD_SIZE && Fresh(s.server)
  {
    s := Start(c);
    var h := s.client;
    assert HostStep(c, Client, h, s.server.sent) == Some(h.(sent := h.sent + Encode(c.client), pc := ConRecv));
    s := Go(c, s, Act(Client));
  }

  lemma BothHaveSent(c: Config) returns (s: State)
    requires c.Valid()
    ensures Reachable(c, s) && ClientYetToRead(s) && |s.client.sent| == RECORD_SIZE
    ensures s.server.pc == ConRecv && s.server.status == Running && s.server.qp == Reset
    ensures s.server.got == [] && s.server.nread == 0 && |s.server.sent| == RECORD_SIZE
  {
    s := ClientHasSent(c);
    var h := s.server;
    s := ServerGoes(c, s, h.(sent := h.sent + Encode(c.server), pc := ConRecv));
  }

  /** The server has the client's record. */
  lemma ServerInformed(c: Config) returns (s: State)
    requires c.Valid()
    ensures Reachable(c, s) && ClientYetToRead(s)
    ensures ServerAt(s, ToInit, Reset)
  {
    s := BothHaveSent(c);
    WholeRecord(c, s.server, s.client.sent, s.client.status == Gone);
    s := Go(c, s, Read(Server, RECORD_SIZE));
  }

  lemma WholeRecord(c: Config, h: Host, peer: seq<byte>, closed: bool)
    requires h.pc == ConRecv && h.status == Running && h.got == [] && h.nread == 0 && |peer| == RECORD_SIZE
    ensures ReadRecord(c, h, peer, closed, RECORD_SIZE) ==
            Some(h.(got := peer, nread := RECORD_SIZE, remote := Some(Decode(peer)), pc := ToInit))
  {
    assert h.got + peer[0..RECORD_SIZE] == peer;
  }

  /** The server's next call, none of the client's. */
  lemma ServerGoes(c: Config, s: State, h': Host) returns (s': State)
    requires c.Valid() && Reachable(c, s) && ClientYetToRead(s) && HostStep(c, Server, s.server, s.client.sent) == Some(h')
    ensures s' == s.(server := h') && Reachable(c, s') && ClientYetToRead(s')
  {
    s' := Go(c, s, Act(Server));
  }

  /** How far the server is with connecting its queue pair. */
  predicate ServerAt(s: State, pc: Pc, qp: QpState) {
    ClientYetToRead(s) && s.server.pc == pc && s.server.status == Running && s.server.qp == qp
    && |s.server.sent| == RECORD_SIZE
  }

  lemma ServerReadyToReceive(c: Config, s: State) returns (s': State)
    requires c.Valid() && Reachable(c, s) && ServerAt(s, ToInit, Reset)
    ensures Reachable(c, s') && ServerAt(s', ToRts, Rtr)
  {
    var h1 := s.server.(qp := Init, pc := ToRtr);
    s' := ServerGoes(c, s, h1);
    s' := ServerGoes(c, s', h1.(qp := Rtr, dest := h1.remote, pc := ToRts));
  }

  lemma ServerReadyToSend(c: Config, s: State) returns (s': State)
    requires c.Valid() && Reachable(c, s) && ServerAt(s, ToRts, Rtr)
    ensures Reachable(c, s') && ServerAt(s', QSend, Rts)
  {
    s' := ServerGoes(c, s, s.server.(qp := Rts, pc := QSend));
  }

  lemma ServerSyncs(c: Config, s: State) returns (s': State)
    requires c.Valid() && Reachable(c, s) && ServerAt(s, QSend, Rts)
    ensures Reachable(c, s') && ClientYetToRead(s') && |s'.server.sent| == RECORD_SIZE + 1
  {
    s' := ServerGoes(c, s, s.server.(sent := s.server.sent + [QBYTE], pc := QRecv));
  }

  /** The server gets to its first sync while the client has not read anything yet. */
  lemma ServerAhead(c: Config) returns (s: State)
    requires c.Valid()
    ensures Reachable(c, s) && ClientYetToRead(s) && |s.server.sent| == RECORD_SIZE + 1
  {
    s := ServerInformed(c);
    s := ServerReadyToReceive(c, s);
    s := ServerReadyToSend(c, s);
    s := ServerSyncs(c, s);
  }

  /** The read of the connection record can store past its end iff a read can be short: one
      byte, and then a whole record's worth more, of which the peer's first sync byte is one. */
  lemma OverrunIff(c: Config)
    requires c.Valid()
    ensures (exists s :: Reachable(c, s) && (s.client.status == Overrun || s.server.status == Overrun)) <==> c.shortReads
  {
    if c.shortReads {
      var s := ServerAhead(c);
      s := Go(c, s, Read(Client, 1));
      s := Go(c, s, Read(Client, RECORD_SIZE));
      assert s.client.status == Overrun;
    } else {
      forall s | Reachable(c, s) ensures s.client.status != Overrun && s.server.status != Overrun {
        ReachableWhole(c, s);
      }
    }
  }

  /** Where reads can be short, the next read of the record can overrun iff some of the record
      has been read and the peer has written more than the record. */
  lemma NextReadOverrunsIff(c: Config, s: State, r: Role)
    requires c.Valid() && c.shortReads && Reachable(c, s) && Sized(s.client) && Sized(s.server)
    requires s.Of(r).status == Running && s.Of(r).pc == ConRecv
    ensures (exists n: nat :: Overruns(c, s, r, n)) <==> s.Of(r).got != [] && |s.Of(r.Peer()).sent| > RECORD_SIZE
  {
    var h, p := s.Of(r), s.Of(r.Peer());
    ReadSoFar(c, s, r) by { ReachableInv(c, s); }
    if h.got != [] && |p.sent| > RECORD_SIZE {
      var n := if |p.sent| - h.nread < RECORD_SIZE then |p.sent| - h.nread else RECORD_SIZE;
      assert ReadRecord(c, h, p.sent, p.status == Gone, n) == Some(h.(status := Overrun));
      assert Overruns(c, s, r, n);
    }
  }

  predicate Overruns(c: Config, s: State, r: Role, n: nat)
    requires c.Valid() && Sized(s.client) && Sized(s.server)
  {
    var next := Next(c, s, Read(r, n));
    next.Some? && next.value.Of(r).status == Overrun
  }

  lemma ReadSoFar(c: Config, s: State, r: Role)
    requires c.Valid() && Taken(c, r, s.Of(r), s.Of(r.Peer()).sent) && s.Of(r).pc == ConRecv
    ensures |s.Of(r).got| == s.Of(r).nread < RECORD_SIZE
  {
  }

  lemma ReachableWhole(c: Config, s: State)
    requires c.Valid() && Reachable(c, s)
    ensures BothWhole(c, s)
  {
    var schedule :| Execute(c, Initial(c), schedule) == Some(s);
    InitialInv(c);
    RunWhole(c, Initial(c), schedule, s);
  }

  // ---------- the reads of the record and the read loop ----------

  /** The reads of the record when `read` returns `results`, one after the other. */
  function RecordReads(c: Config, h: Host, peer: seq<byte>, closed: bool, results: seq<int>): Host
    decreases |results|
  {
    if h.status != Running || h.pc != ConRecv || h.nread > |peer| || results == [] then h
    else
      var tmp := Granted(results[0], RECORD_SIZE, |peer| - h.nread);
      if tmp < 0 then h.(status := Failed)
      else if tmp == 0 then RecordReads(c, h, peer, closed, results[1..])
      else
        match ReadRecord(c, h, peer, closed, tmp)
        case None => h
        case Some(h') => RecordReads(c, h', peer, closed, results[1..])
  }

  function OutcomeOf(h: Host): Outcome {
    if h.status == Overrun then Overran
    else if h.status == Failed then ReadFailed
    else if h.pc == ToInit then Received else Waiting
  }

  /** The host ends as the loop does and, unless that overran, with the same bytes taken and left. */
  predicate EndsAs(h: Host, peer: seq<byte>, end: (Outcome, nat, nat)) {
    && OutcomeOf(h) == end.0
    && (end.0 != Overran ==> |h.got| == end.1 && |peer| - h.nread == end.2)
    && (end.0 == Received ==> |h.got| == RECORD_SIZE && h.remote == Some(Decode(h.got)))
  }

  /** They are the read loop of `sock_sync_data` at the size of the record. */
  lemma {:induction false} RecordReadsAreLoop(c: Config, h: Host, peer: seq<byte>, closed: bool, results: seq<int>)
    requires c.shortReads && h.status == Running && h.pc == ConRecv && |h.got| < RECORD_SIZE && h.nread <= |peer|
    ensures EndsAs(RecordReads(c, h, peer, closed, results), peer, Loop(|h.got|, RECORD_SIZE, |peer| - h.nread, results))
    decreases |results|
  {
    if results != [] {
      var there := |peer| - h.nread;
      var tmp := Granted(results[0], RECORD_SIZE, there);
      if tmp >= 0 {
        assert Loop(|h.got|, RECORD_SIZE, there, results) == Loop(|h.got| + tmp, RECORD_SIZE, there - tmp, results[1..]);
        if tmp == 0 {
          RecordReadsAreLoop(c, h, peer, closed, results[1..]);
        } else {
          var h' := ReadRecord(c, h, peer, closed, tmp).value;
          assert RecordReads(c, h, peer, closed, results) == RecordReads(c, h', peer, closed, results[1..]);
          if h'.status == Running && h'.pc == ConRecv {
            RecordReadsAreLoop(c, h', peer, closed, results[1..]);
          } else {
            assert RecordReads(c, h', peer, closed, results[1..]) == h';
          }
        }
      }
    }
  }

  // ---------- runs without failures ----------

  predicate Faultless(a: Action) {
    !a.Fail? && !a.FailSend? && !a.NetGiveUp?
  }

  predicate Healthy(h: Host) {
    && (h.status == Running || (h.status == Gone && h.pc == Done))
    && h.qp != Broken && Error !in h.cq
  }

  lemma HostHealthy(c: Config, r: Role, h: Host, peer: seq<byte>, h': Host)
    requires c.Valid() && Sized(h) && Healthy(h) && Moved(c, r, h, peer, h')
    ensures Healthy(h')
  {
  }

  lemma DeliverHealthy(c: Config, r: Role, h: Host, p: Host, h': Host, p': Host)
    requires Deliver(c, r, h, p) == Some((h', p')) && Healthy(h) && Healthy(p)
    ensures Healthy(h') && Healthy(p')
  {
  }

  lemma NetworkHealthy(c: Config, s: State, a: Action, s': State)
    requires c.Valid() && Sized(s.client) && Sized(s.server) && Next(c, s, a) == Some(s') && Faultless(a)
    requires !a.Act? && !a.NetDeliver? && s'.Of(a.r).status != Overrun && Healthy(s.Of(a.r))
    ensures Healthy(s'.Of(a.r)) && s'.Of(a.r.Peer()) == s.Of(a.r.Peer())
  {
  }

  lemma StepHealthy(c: Config, s: State, a: Action, s': State)
    requires c.Valid() && Sized(s.client) && Sized(s.server) && Next(c, s, a) == Some(s') && Faultless(a)
    requires s'.client.status != Overrun && s'.server.status != Overrun
    requires Healthy(s.client) && Healthy(s.server)
    ensures Healthy(s'.client) && Healthy(s'.server)
  {
    var h, p, h', p' := s.Of(a.r), s.Of(a.r.Peer()), s'.Of(a.r), s'.Of(a.r.Peer());
    if a.Act? {
      HostHealthy(c, a.r, h, p.sent, h');
    } else if a.NetDeliver? {
      DeliverHealthy(c, a.r, h, p, h', p');
    } else {
      NetworkHealthy(c, s, a, s');
    }
  }

  // ---------- progress ----------

  /** The next thing to happen at host `r`. */
  function Move(s: State, r: Role): Action {
    var h := s.Of(r);
    if h.pc == ConRecv then Read(r, if h.nread < RECORD_SIZE then RECORD_SIZE - h.nread else 0)
    else if Waits(r, h.pc) && h.sq != [] then
      (match h.sq[0].progress
       case Posted => NetFetch(r)
       case InFlight => NetDeliver(r)
       case Delivered => NetComplete(r))
    else Act(r)
  }

  /** Host `r` waits for its peer. */
  predicate Blocked(s: State, r: Role) {
    var h, i := s.Of(r), Idx(s.Of(r.Peer()).pc);
    || (h.pc == ConRecv && i == 0)
    || (h.pc == QRecv && i <= 6)
    || (h.pc == RRecv && i <= 12)
    || (h.pc == WRecv && i <= 20)
    || (r == Client && h.pc == Poll1 && h.cq == [])
  }

  lemma PointsNeverDeadlock(s: State)
    requires OnPath(Client, s.client.pc) && OnPath(Server, s.server.pc)
    requires Idx(s.client.pc) > 7 ==> Idx(s.server.pc) > 6
    requires Idx(s.client.pc) > 13 ==> Idx(s.server.pc) > 12
    requires Idx(s.client.pc) > 21 ==> Idx(s.server.pc) > 20
    requires s.client.pc == Poll1 && s.client.cq == [] ==> Idx(s.server.pc) <= 9
    requires s.client.pc != Done || s.server.pc != Done
    ensures (s.client.pc != Done && !Blocked(s, Client)) || (s.server.pc != Done && !Blocked(s, Server))
  {
  }

  /** The two are never waiting for each other. */
  lemma NoDeadlock(c: Config, s: State)
    requires c.Valid() && Inv(c, s)
    requires s.client.pc != Done || s.server.pc != Done
    ensures (s.client.pc != Done && !Blocked(s, Client)) || (s.server.pc != Done && !Blocked(s, Server))
  {
    Synced(c, s, Client);
    assert s.client.pc == Poll1 && s.client.cq == [] ==> Idx(s.server.pc) <= 9;
    PointsNeverDeadlock(s);
  }

  lemma RequestMoves(r: Role, h: Host)
    requires QpOk(r, h) && Queues(r, h) && Healthy(h) && OnPath(r, h.pc) && h.sq != []
    ensures h.sq[0].progress == Posted ==> Fetch(h).Some?
    ensures h.sq[0].progress == Delivered ==> Complete(h).Some?
  {
    assert 9 <= Idx(h.pc) <= 19;
  }

  lemma ServerStays(c: Config, s: State)
    requires c.Valid() && Streams(c, s) && Queues(Client, s.client) && s.client.sq != [] && Healthy(s.server)
    ensures s.server.status != Gone
  {
    Synced(c, s, Server);
  }

  lemma ClientStays(c: Config, s: State)
    requires c.Valid() && ClientQueues(s.client) && ServerQueues(s.client, s.server) && OnPath(Server, s.server.pc)
    requires s.server.sq != [] && s.server.sq[0].progress == InFlight && Healthy(s.client)
    ensures s.client.status != Gone
  {
    assert s.server.pc == Poll1;
  }

  lemma RequestArrives(c: Config, s: State, r: Role)
    requires c.Valid() && Inv(c, s) && Healthy(s.Of(r.Peer())) && s.Of(r).sq != [] && s.Of(r).sq[0].progress == InFlight
    ensures Deliver(c, r, s.Of(r), s.Of(r.Peer())).Some?
  {
    if r == Client {
      ServerStays(c, s);
      ServerReady(c, s);
    } else {
      ClientStays(c, s);
      MessageReady(c, s);
    }
  }

  lemma MoveTaken(c: Config, s: State, r: Role)
    requires c.Valid() && Sized(s.client) && Sized(s.server) && Waits(r, s.Of(r).pc) && s.Of(r).sq != []
    requires match s.Of(r).sq[0].progress
             case Posted => Fetch(s.Of(r)).Some?
             case InFlight => Deliver(c, r, s.Of(r), s.Of(r.Peer())).Some?
             case Delivered => Complete(s.Of(r)).Some?
    ensures Next(c, s, Move(s, r)).Some?
  {
  }

  lemma NetworkMoves(c: Config, s: State, r: Role)
    requires c.Valid() && Inv(c, s) && Healthy(s.client) && Healthy(s.server) && Waits(r, s.Of(r).pc) && s.Of(r).sq != []
    ensures Next(c, s, Move(s, r)).Some?
  {
    RequestMoves(r, s.Of(r));
    if s.Of(r).sq[0].progress == InFlight {
      RequestArrives(c, s, r);
    }
    MoveTaken(c, s, r);
  }

  lemma CallPossible(c: Config, r: Role, h: Host, peer: seq<byte>)
    requires c.Valid() && Local(c, r, h) && QpOk(r, h) && Queues(r, h) && h.status == Running && h.pc != Done && h.pc != ConRecv
    requires h.pc == PostRecv ==> h.rq == 0
    requires Polls(h.pc) ==> h.cq != []
    requires ReadsByte(h.pc) ==> h.nread < |peer|
    ensures HostStep(c, r, h, peer).Some?
  {
  }

  lemma NothingToRefuse(c: Config, s: State, r: Role)
    requires c.Valid() && Inv(c, s) && s.Of(r).status == Running
    requires s.Of(r).pc != Done && !AtRead(s.Of(r).pc) && !Polls(s.Of(r).pc)
    ensures Next(c, s, Act(r)).Some?
  {
    CallPossible(c, r, s.Of(r), s.Of(r.Peer()).sent);
  }

  /** No call but those that wait, the reads and the polls, is ever refused: no transition of
      the queue pair and no posting of a request comes at a wrong time, whatever has failed. */
  lemma NotRefused(c: Config, s: State, r: Role)
    requires c.Valid() && Reachable(c, s) && s.Of(r).status == Running
    requires s.Of(r).pc != Done && !AtRead(s.Of(r).pc) && !Polls(s.Of(r).pc)
    ensures Next(c, s, Act(r)).Some?
  {
    ReachableInv(c, s);
    NothingToRefuse(c, s, r);
  }

  lemma ByteThere(c: Config, s: State, r: Role)
    requires c.Valid() && Streams(c, s) && OnPath(r, s.Of(r).pc) && ReadsByte(s.Of(r).pc) && !Blocked(s, r)
    ensures s.Of(r).nread < |s.Of(r.Peer()).sent|
  {
    var h, p := s.Of(r), s.Of(r.Peer());
    assert Written(c, r.Peer(), p) && Taken(c, r, h, p.sent);
    assert |p.sent| == SentAt(p.pc) && h.nread == ReadAt(h.pc);
  }

  lemma RecordThere(c: Config, s: State, r: Role)
    requires c.Valid() && Inv(c, s) && s.Of(r).pc == ConRecv && s.Of(r.Peer()).pc != ConSend
    ensures s.Of(r).nread < RECORD_SIZE <= |s.Of(r.Peer()).sent| && |s.Of(r).got| == s.Of(r).nread
  {
  }

  lemma CallMoves(c: Config, s: State, r: Role)
    requires c.Valid() && Inv(c, s) && s.Of(r).status == Running && s.Of(r).pc != Done && s.Of(r).pc != ConRecv
    requires !Blocked(s, r) && !(Waits(r, s.Of(r).pc) && s.Of(r).sq != [])
    ensures Next(c, s, Act(r)).Some?
  {
    if ReadsByte(s.Of(r).pc) {
      ByteThere(c, s, r);
    }
    CallPossible(c, r, s.Of(r), s.Of(r.Peer()).sent);
  }

  lemma RecordReadable(c: Config, h: Host, p: Host)
    requires Whole(c, h, p) && h.status == Running && h.pc == ConRecv && |h.got| == h.nread < RECORD_SIZE <= |p.sent|
    ensures ReadRecord(c, h, p.sent, p.status == Gone, RECORD_SIZE - h.nread).Some?
  {
  }

  lemma RecordMoves(c: Config, s: State, r: Role)
    requires c.Valid() && Inv(c, s) && Sized(s.client) && Sized(s.server) && s.Of(r).status == Running && s.Of(r).pc == ConRecv
    requires BothWhole(c, s) && !Blocked(s, r)
    ensures s.Of(r).nread < RECORD_SIZE && Next(c, s, Read(r, RECORD_SIZE - s.Of(r).nread)).Some?
  {
    RecordThere(c, s, r);
    RecordReadable(c, s.Of(r), s.Of(r.Peer()));
  }

  lemma MoveCases(c: Config, s: State, r: Role)
    requires c.Valid() && Sized(s.client) && Sized(s.server) && !(Waits(r, s.Of(r).pc) && s.Of(r).sq != [])
    requires if s.Of(r).pc == ConRecv
             then s.Of(r).nread < RECORD_SIZE && Next(c, s, Read(r, RECORD_SIZE - s.Of(r).nread)).Some?
             else Next(c, s, Act(r)).Some?
    ensures Next(c, s, Move(s, r)).Some?
  {
  }

  lemma MoveFaultless(s: State, r: Role)
    ensures Faultless(Move(s, r)) && !Move(s, r).ZeroRead?
  {
  }

  lemma HostMoves(c: Config, s: State, r: Role)
    requires c.Valid() && Inv(c, s) && Healthy(s.client) && Healthy(s.server) && s.Of(r).pc != Done
    requires BothWhole(c, s) && !Blocked(s, r)
    ensures Next(c, s, Move(s, r)).Some?
  {
    var h := s.Of(r);
    if Waits(r, h.pc) && h.sq != [] {
      NetworkMoves(c, s, r);
    } else {
      if h.pc == ConRecv {
        RecordMoves(c, s, r);
      } else {
        CallMoves(c, s, r);
      }
      MoveCases(c, s, r);
    }
  }

  /** Where the hosts stand in every state of a run without failures. */
  ghost predicate Good(c: Config, s: State)
    requires c.Valid()
  {
    && Inv(c, s) && BothWhole(c, s)
    && Healthy(s.client) && Healthy(s.server)
  }

  /** A state of such a run in which not both sides are through has a next step, which is not a failure. */
  lemma Progresses(c: Config, s: State)
    requires c.Valid() && Good(c, s) && (s.client.pc != Done || s.server.pc != Done)
    ensures exists a :: Faultless(a) && !a.ZeroRead? && Next(c, s, a).Some?
  {
    NoDeadlock(c, s);
    MoveFaultless(s, Client);
    MoveFaultless(s, Server);
    if s.client.pc != Done && !Blocked(s, Client) {
      HostMoves(c, s, Client);
    } else {
      HostMoves(c, s, Server);
    }
  }

  ghost predicate AllFaultless(schedule: seq<Action>) {
    forall a | a in schedule :: Faultless(a)
  }

  lemma {:induction false} OverrunStays(c: Config, s: State, schedule: seq<Action>, s': State, r: Role)
    requires c.Valid() && Sized(s.client) && Sized(s.server) && Execute(c, s, schedule) == Some(s')
    requires s.Of(r).status == Overrun
    ensures s'.Of(r).status == Overrun
    decreases |schedule|
  {
    if schedule != [] {
      var mid := Next(c, s, schedule[0]).value;
      OverrunLasts(c, s, schedule[0], mid, r);
      OverrunStays(c, mid, schedule[1..], s', r);
    }
  }

  lemma OverrunLasts(c: Config, s: State, a: Action, s': State, r: Role)
    requires c.Valid() && Sized(s.client) && Sized(s.server) && Next(c, s, a) == Some(s') && s.Of(r).status == Overrun
    ensures s'.Of(r).status == Overrun
  {
    if a.NetDeliver? {
      assert Deliver(c, a.r, s.Of(a.r), s.Of(a.r.Peer())) == Some((s'.Of(a.r), s'.Of(a.r.Peer())));
    }
  }

  predicate NoOverrun(s: State) {
    s.client.status != Overrun && s.server.status != Overrun
  }

  lemma {:induction false} RunGood(c: Config, s: State, schedule: seq<Action>, s': State)
    requires c.Valid() && Good(c, s) && AllFaultless(schedule) && Execute(c, s, schedule) == Some(s') && NoOverrun(s')
    ensures Good(c, s')
    decreases |schedule|
  {
    if schedule != [] {
      var mid, rest := Next(c, s, schedule[0]).value, schedule[1..];
      OverrunBefore(c, mid, rest, s');
      StepGood(c, s, schedule[0], mid);
      RunGood(c, mid, rest, s');
    }
  }

  lemma StepGood(c: Config, s: State, a: Action, s': State)
    requires c.Valid() && Good(c, s) && Faultless(a) && Next(c, s, a) == Some(s') && NoOverrun(s')
    ensures Good(c, s')
  {
    StepInv(c, s, a, s');
    StepWhole(c, s, a, s');
    StepHealthy(c, s, a, s');
  }

  /** A run without failures that has overrun nothing, as is always so without short reads, and
      cannot go on, has both sides at the end and everything printed; and it always gets so far
      that it cannot go on (`FaultlessRunsEnd`). */
  lemma Completes(c: Config, schedule: seq<Action>, s: State)
    requires c.Valid() && AllFaultless(schedule) && Execute(c, Initial(c), schedule) == Some(s)
    requires NoOverrun(s) && forall a :: Faultless(a) && !a.ZeroRead? ==> Next(c, s, a).None?
    ensures s.client.pc == Done && s.server.pc == Done
    ensures s.client.out == [c.msg, c.forRead] && s.server.out == [c.forWrite]
  {
    InitialInv(c);
    RunGood(c, Initial(c), schedule, s);
    if s.client.pc != Done || s.server.pc != Done {
      Progresses(c, s);
    }
    EndToEnd(c, s);
  }

  /** In such a run no read ever returns 0: who closes the connection has written everything. */
  lemma NoZeroReads(c: Config, s: State, r: Role)
    requires c.Valid() && Good(c, s)
    ensures !Starved(s.Of(r), s.Of(r.Peer()))
  {
    AllWritten(c, r, s.Of(r), s.Of(r.Peer()));
  }

  lemma AllWritten(c: Config, r: Role, h: Host, p: Host)
    requires c.Valid() && Healthy(p) && Written(c, r.Peer(), p) && Taken(c, r, h, p.sent)
    ensures !Starved(h, p)
  {
    if p.status == Gone {
      assert |p.sent| == SentAt(Done) == 37;
    }
  }

  lemma {:induction false} GoodWorks(c: Config, s: State, schedule: seq<Action>, s': State)
    requires c.Valid() && Good(c, s) && AllFaultless(schedule) && Execute(c, s, schedule) == Some(s') && NoOverrun(s')
    ensures Work(schedule) == |schedule|
    decreases |schedule|
  {
    if schedule != [] {
      var a, mid := schedule[0], Next(c, s, schedule[0]).value;
      NoZeroReads(c, s, a.r);
      OverrunBefore(c, mid, schedule[1..], s');
      StepGood(c, s, a, mid);
      GoodWorks(c, mid, schedule[1..], s');
    }
  }

  lemma OverrunBefore(c: Config, s: State, schedule: seq<Action>, s': State)
    requires c.Valid() && Sized(s.client) && Sized(s.server) && Execute(c, s, schedule) == Some(s') && NoOverrun(s')
    ensures NoOverrun(s)
  {
    if s.client.status == Overrun {
      OverrunStays(c, s, schedule, s', Client);
    } else if s.server.status == Overrun {
      OverrunStays(c, s, schedule, s', Server);
    }
  }

  /** Such a run ends: it has at most 256 steps. */
  lemma FaultlessRunsEnd(c: Config, schedule: seq<Action>, s: State)
    requires c.Valid() && AllFaultless(schedule) && Execute(c, Initial(c), schedule) == Some(s) && NoOverrun(s)
    ensures |schedule| <= 256
  {
    InitialInv(c);
    GoodWorks(c, Initial(c), schedule, s);
    RunsBounded(c, schedule);
  }

  // ---------- every healthy run can be completed ----------

  /** The next thing to happen at a host that does not wait overruns nothing. */
  lemma GoodMoveBy(c: Config, s: State, r: Role) returns (a: Action, s': State)
    requires c.Valid() && Good(c, s) && s.Of(r).pc != Done && !Blocked(s, r)
    ensures Faultless(a) && !a.ZeroRead? && a.r == r && Next(c, s, a) == Some(s') && Good(c, s')
  {
    HostMoves(c, s, r);
    MoveFaultless(s, r);
    ReadsWhatIsMissing(c, s, r);
    a := Move(s, r);
    s' := Next(c, s, a).value;
    StepsOn(c, s, a, s');
  }

  /** The step of `Progresses`. */
  lemma GoodMove(c: Config, s: State) returns (a: Action, s': State)
    requires c.Valid() && Good(c, s) && (s.client.pc != Done || s.server.pc != Done)
    ensures Faultless(a) && !a.ZeroRead? && Next(c, s, a) == Some(s') && Good(c, s')
  {
    NoDeadlock(c, s);
    a, s' := GoodMoveBy(c, s, if s.client.pc != Done && !Blocked(s, Client) then Client else Server);
  }

  lemma StepsOn(c: Config, s: State, a: Action, s': State)
    requires c.Valid() && Good(c, s) && Faultless(a) && Next(c, s, a) == Some(s')
    requires a.Read? ==> |s.Of(a.r).got| + a.n <= RECORD_SIZE
    ensures Good(c, s')
  {
    OnlyReadsOverrun(c, s, a, s');
    StepGood(c, s, a, s');
  }

  /** Only a read of the record can overrun anything, and not one of what is missing. */
  lemma OnlyReadsOverrun(c: Config, s: State, a: Action, s': State)
    requires c.Valid() && Sized(s.client) && Sized(s.server) && NoOverrun(s) && Next(c, s, a) == Some(s')
    requires a.Read? ==> |s.Of(a.r).got| + a.n <= RECORD_SIZE
    ensures NoOverrun(s')
  {
    var r, h, p := a.r, s.Of(a.r), s.Of(a.r.Peer());
    if a.Act? {
      assert Moved(c, r, h, p.sent, s'.Of(r)) && s'.Of(r.Peer()) == p;
    } else if a.Read? {
      assert ReadRecord(c, h, p.sent, p.status == Gone, a.n) == Some(s'.Of(r)) && s'.Of(r.Peer()) == p;
    } else if a.NetDeliver? {
      assert Deliver(c, r, h, p) == Some((s'.Of(r), s'.Of(r.Peer())));
    }
  }

  lemma ReadsWhatIsMissing(c: Config, s: State, r: Role)
    requires c.Valid() && Taken(c, r, s.Of(r), s.Of(r.Peer()).sent)
    ensures Move(s, r).r == r && (Move(s, r).Read? ==> |s.Of(r).got| + Move(s, r).n <= RECORD_SIZE)
  {
  }

  lemma {:induction false} Finish(c: Config, s: State) returns (schedule: seq<Action>, s': State)
    requires c.Valid() && Good(c, s)
    ensures AllFaultless(schedule) && Execute(c, s, schedule) == Some(s')
    ensures Printed(c, s'.client, s'.server) && s'.client.pc == Done && s'.server.pc == Done
    decreases Left(s.client) + Left(s.server)
  {
    if s.client.pc == Done && s.server.pc == Done {
      schedule, s' := [], s;
    } else {
      var a, mid := GoodMove(c, s);
      StepSpends(c, s, a, mid);
      LeftNonNegative(c, mid);
      var rest;
      rest, s' := Finish(c, mid);
      schedule := [a] + rest;
      assert schedule[1..] == rest;
    }
  }

  lemma PrintedInTheEnd(c: Config, s: State)
    requires Printed(c, s.client, s.server) && s.client.pc == Done && s.server.pc == Done
    ensures s.client.out == [c.msg, c.forRead] && s.server.out == [c.forWrite]
  {
  }

  /** However far a run has got without failing or overrunning anything, there is a way to
      complete it, with everything printed, short reads or not. */
  lemma CanComplete(c: Config, schedule: seq<Action>, s: State) returns (rest: seq<Action>, s': State)
    requires c.Valid() && AllFaultless(schedule) && Execute(c, Initial(c), schedule) == Some(s) && NoOverrun(s)
    ensures AllFaultless(rest) && Execute(c, s, rest) == Some(s')
    ensures s'.client.out == [c.msg, c.forRead] && s'.server.out == [c.forWrite]
  {
    InitialInv(c);
    RunGood(c, Initial(c), schedule, s);
    rest, s' := Finish(c, s);
    PrintedInTheEnd(c, s');
  }
}

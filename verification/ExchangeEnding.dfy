/**
  How runs of the exchange end, whatever fails: each side has destroyed its resources, or it
  reads for ever from a connection that its peer has closed.
 */
module ExchangeEnding {
  import opened Wrappers
  import opened Bytes
  import opened ExchangeWire
  import opened ExchangeMachine
  import opened ExchangeInvariant
  import opened ExchangeTheorems
  import opened ExchangeCompletion

  predicate StarvedAt(s: State, r: Role) {
    Starved(s.Of(r), s.Of(r.Peer()))
  }

  // ---------- reads that return 0 ----------

  /** A side whose reads return 0 goes on reading, until a read fails. */
  lemma StarvedLasts(c: Config, s: State, r: Role, a: Action, s': State)
    requires c.Valid() && Sized(s.client) && Sized(s.server) && StarvedAt(s, r) && Next(c, s, a) == Some(s')
    ensures StarvedAt(s', r) || a == Fail(r)
  {
    var h, p := s.Of(a.r), s.Of(a.r.Peer());
    if a.NetDeliver? {
      assert Deliver(c, a.r, h, p) == Some((s'.Of(a.r), s'.Of(a.r.Peer())));
    } else if a.r == r {
      assert s'.Of(r.Peer()) == p;
    }
  }

  function ZeroReads(r: Role, n: nat): (schedule: seq<Action>)
    ensures |schedule| == n
  {
    if n == 0 then [] else [ZeroRead(r)] + ZeroReads(r, n - 1)
  }

  lemma {:induction false} StarvedSpins(c: Config, s: State, r: Role, n: nat)
    requires c.Valid() && Sized(s.client) && Sized(s.server) && StarvedAt(s, r)
    ensures Execute(c, s, ZeroReads(r, n)) == Some(s)
  {
    if n > 0 {
      StarvedSpins(c, s, r, n - 1);
      assert ZeroReads(r, n)[1..] == ZeroReads(r, n - 1);
    }
  }

  // ---------- runs without end ----------

  ghost predicate LongRun(c: Config, s: State, n: nat)
    requires c.Valid() && Sized(s.client) && Sized(s.server)
  {
    exists schedule :: |schedule| >= n && Execute(c, s, schedule).Some?
  }

  /** There is no bound on how long a run from `s` can be. */
  ghost predicate Endless(c: Config, s: State)
    requires c.Valid() && Sized(s.client) && Sized(s.server)
  {
    forall n: nat :: LongRun(c, s, n)
  }

  ghost predicate CanStarve(c: Config, s: State)
    requires c.Valid() && Sized(s.client) && Sized(s.server)
  {
    exists t :: LeadsTo(c, s, t) && (StarvedAt(t, Client) || StarvedAt(t, Server))
  }

  lemma StarvedEndless(c: Config, s: State, t: State, r: Role, n: nat)
    requires c.Valid() && Sized(s.client) && Sized(s.server) && LeadsTo(c, s, t) && StarvedAt(t, r)
    ensures LongRun(c, s, n)
  {
    var schedule :| Execute(c, s, schedule) == Some(t);
    StarvedSpins(c, t, r, n);
    ExecuteConcat(c, s, schedule, t, ZeroReads(r, n), t);
    assert Execute(c, s, schedule + ZeroReads(r, n)).Some?;
  }

  lemma LeadsToFirst(c: Config, s: State, a: Action, mid: State, t: State)
    requires c.Valid() && Sized(s.client) && Sized(s.server) && Next(c, s, a) == Some(mid) && LeadsTo(c, mid, t)
    ensures LeadsTo(c, s, t)
  {
    var rest :| Execute(c, mid, rest) == Some(t);
    FirstStep(c, s, a, mid, rest);
  }

  lemma {:induction false} ZeroReadFound(c: Config, s: State, schedule: seq<Action>)
    requires c.Valid() && Sized(s.client) && Sized(s.server) && Execute(c, s, schedule).Some? && Work(schedule) < |schedule|
    ensures CanStarve(c, s)
    decreases |schedule|
  {
    var a, mid := schedule[0], Next(c, s, schedule[0]).value;
    if a.ZeroRead? {
      LeadsToSelf(c, s);
      assert StarvedAt(s, a.r);
    } else {
      ZeroReadFound(c, mid, schedule[1..]);
      var t :| LeadsTo(c, mid, t) && (StarvedAt(t, Client) || StarvedAt(t, Server));
      LeadsToFirst(c, s, a, mid, t);
    }
  }

  /** Runs from a reachable state can go on for ever iff one of them comes to a side at a read
      whose peer has destroyed its resources, with nothing left of what the peer wrote. */
  lemma EndlessIff(c: Config, s: State)
    requires c.Valid() && Reachable(c, s) && Sized(s.client) && Sized(s.server)
    ensures Endless(c, s) <==> CanStarve(c, s)
  {
    if Endless(c, s) {
      LongRunStarves(c, s);
    }
    if t :| LeadsTo(c, s, t) && (StarvedAt(t, Client) || StarvedAt(t, Server)) {
      forall n: nat ensures LongRun(c, s, n) {
        StarvedEndless(c, s, t, if StarvedAt(t, Client) then Client else Server, n);
      }
    }
  }

  lemma LongRunStarves(c: Config, s: State)
    requires c.Valid() && Reachable(c, s) && Sized(s.client) && Sized(s.server) && Endless(c, s)
    ensures CanStarve(c, s)
  {
    var n := Left(s.client) + Left(s.server);
    LeftNonNegative(c, s) by { ReachableInv(c, s); }
    assert LongRun(c, s, n + 1);
    var schedule :| |schedule| >= n + 1 && Execute(c, s, schedule).Some?;
    var t := Execute(c, s, schedule).value;
    RunSpends(c, s, schedule, t);
    LeftAfter(c, s, schedule, t);
    ZeroReadFound(c, s, schedule);
  }

  lemma LeftAfter(c: Config, s: State, schedule: seq<Action>, t: State)
    requires c.Valid() && Reachable(c, s) && Sized(s.client) && Sized(s.server) && Execute(c, s, schedule) == Some(t)
    ensures Left(t.client) >= 0 && Left(t.server) >= 0
  {
    ReachableInv(c, s);
    RunInv(c, s, schedule, t);
    LeftNonNegative(c, t);
  }

  /** It happens: the client fails at once and closes the connection, and the server, which has
      sent its record, reads for ever. */
  lemma ServerStarves(c: Config) returns (s: State)
    requires c.Valid()
    ensures Execute(c, Initial(c), [Fail(Client), Destroy(Client), Act(Server)]) == Some(s)
    ensures StarvedAt(s, Server) && Endless(c, Initial(c))
  {
    var i := Initial(c);
    var failed := i.With(Client, i.client.(status := Failed));
    var gone := i.With(Client, i.client.(status := Gone));
    s := Next(c, gone, Act(Server)).value;
    assert Next(c, i, Fail(Client)) == Some(failed) && Next(c, failed, Destroy(Client)) == Some(gone);
    ThreeSteps(c, i, Fail(Client), failed, Destroy(Client), gone, Act(Server), s);
    StartReachable(c);
    assert StarvedAt(s, Server);
    EndlessIff(c, i);
  }

  lemma RecordCutOff(c: Config, n: nat) returns (s: State)
    requires c.Valid() && n < RECORD_SIZE
    ensures Reachable(c, s) && s.client.status == Gone && s.client.sent == Encode(c.client)[..n] && Fresh(s.server)
  {
    s := Start(c);
    var h, part := s.client, Encode(c.client)[..n];
    EmptyConcat(part);
    s := Go(c, s, FailSend(Client, n));
    assert s.client == h.(status := Failed, sent := h.sent + part);
    s := Go(c, s, Destroy(Client));
  }

  lemma EmptyConcat(b: seq<byte>)
    ensures [] + b == b
  {
  }

  lemma FreshSends(c: Config, s: State) returns (s': State)
    requires c.Valid() && Reachable(c, s) && Sized(s.client) && Fresh(s.server)
    ensures Reachable(c, s') && s' == s.(server := s.server.(sent := s.server.sent + Encode(c.server), pc := ConRecv))
  {
    s' := Go(c, s, Act(Server));
  }

  lemma ReadsPart(c: Config, s: State, n: nat) returns (s': State)
    requires c.Valid() && Reachable(c, s) && Sized(s.client) && Sized(s.server) && 0 < n < RECORD_SIZE
    requires s.client.status == Gone && |s.client.sent| == n
    requires s.server.pc == ConRecv && s.server.status == Running && s.server.got == [] && s.server.nread == 0
    ensures Reachable(c, s') && s' == s.(server := s.server.(got := s.client.sent, nread := n))
  {
    CutOffRead(c, s.server, s.client.sent);
    s' := Go(c, s, Read(Server, n));
  }

  /** However much of its record the client has written when that fails, the server reads just
      that much, short reads or not, and then for ever nothing. */
  lemma PartialRecordStarves(c: Config, n: nat) returns (s: State)
    requires c.Valid() && n < RECORD_SIZE
    ensures Reachable(c, s) && StarvedAt(s, Server) && s.server.got == Encode(c.client)[..n]
  {
    s := RecordCutOff(c, n);
    s := FreshSends(c, s);
    if n > 0 {
      s := ReadsPart(c, s, n);
    }
  }

  lemma CutOffRead(c: Config, h: Host, peer: seq<byte>)
    requires h.pc == ConRecv && h.status == Running && h.got == [] && h.nread == 0 && 0 < |peer| < RECORD_SIZE
    ensures ReadRecord(c, h, peer, true, |peer|) == Some(h.(got := peer, nread := |peer|))
  {
    assert peer[0..|peer|] == peer;
    EmptyConcat(peer);
  }

  lemma StartReachable(c: Config)
    requires c.Valid()
    ensures Reachable(c, Initial(c)) && Sized(Initial(c).client) && Sized(Initial(c).server)
  {
    LeadsToSelf(c, Initial(c));
  }

  lemma ThreeItems<T>(x: T, y: T, z: T)
    ensures [x] + ([y] + ([z] + [])) == [x, y, z]
  {
  }

  lemma TwoSteps(c: Config, s: State, a1: Action, s1: State, a2: Action, s2: State)
    requires c.Valid() && Sized(s.client) && Sized(s.server) && Next(c, s, a1) == Some(s1) && Next(c, s1, a2) == Some(s2)
    ensures Execute(c, s, [a1] + ([a2] + [])) == Some(s2)
  {
    FirstStep(c, s1, a2, s2, []);
    FirstStep(c, s, a1, s1, [a2] + []);
  }

  lemma ThreeSteps(c: Config, s: State, a1: Action, s1: State, a2: Action, s2: State, a3: Action, s3: State)
    requires c.Valid() && Sized(s.client) && Sized(s.server) && Next(c, s, a1) == Some(s1)
    requires Next(c, s1, a2) == Some(s2) && Next(c, s2, a3) == Some(s3)
    ensures Execute(c, s, [a1, a2, a3]) == Some(s3) && LeadsTo(c, s, s3)
  {
    var rest := [a2] + ([a3] + []);
    TwoSteps(c, s1, a2, s2, a3, s3);
    FirstStep(c, s, a1, s1, rest);
    ThreeItems(a1, a2, a3);
  }

  // ---------- from which states a side can be left reading ----------

  /** Both sides have written their last byte. */
  predicate BothWritten(s: State) {
    Idx(s.client.pc) > 20 && Idx(s.server.pc) > 20
  }

  lemma StepPoint(c: Config, s: State, a: Action, m: State)
    requires c.Valid() && Sized(s.client) && Sized(s.server) && Next(c, s, a) == Some(m)
    ensures m.Of(a.r.Peer()).pc == s.Of(a.r.Peer()).pc
    ensures m.Of(a.r).pc == s.Of(a.r).pc || (s.Of(a.r).pc != Done && m.Of(a.r).pc == NextPc(a.r, s.Of(a.r).pc))
  {
    var h, p := s.Of(a.r), s.Of(a.r.Peer());
    if a.NetDeliver? {
      assert Deliver(c, a.r, h, p) == Some((m.Of(a.r), m.Of(a.r.Peer())));
    } else {
      assert m.Of(a.r.Peer()) == p;
    }
  }

  lemma NextBefore(r: Role, pc: Pc)
    requires OnPath(r, pc) && Idx(pc) < 20
    ensures Idx(NextPc(r, pc)) <= 20
  {
  }

  /** A step takes no host back, and one at most to its last write. */
  lemma StepOnward(c: Config, s: State, a: Action, m: State, r: Role)
    requires c.Valid() && Sized(s.client) && Sized(s.server) && Next(c, s, a) == Some(m)
    ensures Idx(m.Of(r).pc) >= Idx(s.Of(r).pc)
    ensures (a.r == r ==> Idx(s.Of(r).pc) < 20) && OnPath(r, s.Of(r).pc) && Idx(s.Of(r).pc) <= 20 ==> Idx(m.Of(r).pc) <= 20
  {
    StepPoint(c, s, a, m);
    var pc := s.Of(r).pc;
    if a.r == r && pc != Done {
      Onward(r, pc);
      if OnPath(r, pc) && Idx(pc) < 20 {
        NextBefore(r, pc);
      }
    }
  }

  lemma {:induction false} RunOnward(c: Config, s: State, schedule: seq<Action>, t: State)
    requires c.Valid() && Sized(s.client) && Sized(s.server) && Execute(c, s, schedule) == Some(t) && BothWritten(s)
    ensures BothWritten(t)
    decreases |schedule|
  {
    if schedule != [] {
      var mid := Head(c, s, schedule);
      StepOnward(c, s, schedule[0], mid, Client);
      StepOnward(c, s, schedule[0], mid, Server);
      RunOnward(c, mid, schedule[1..], t);
    }
  }

  lemma WrittenNotStarved(c: Config, s: State, r: Role)
    requires c.Valid() && Streams(c, s) && BothWritten(s)
    ensures !StarvedAt(s, r)
  {
    var h, p := s.Of(r), s.Of(r.Peer());
    assert Written(c, r.Peer(), p) && Taken(c, r, h, p.sent);
    assert |p.sent| == SentAt(p.pc) == 37;
  }

  /** Once both have written their last byte, nobody is ever left reading, whatever fails. */
  lemma WrittenNeverStarves(c: Config, s: State)
    requires c.Valid() && Reachable(c, s) && Sized(s.client) && Sized(s.server) && BothWritten(s)
    ensures !CanStarve(c, s)
  {
    forall t | LeadsTo(c, s, t) ensures !StarvedAt(t, Client) && !StarvedAt(t, Server) {
      var schedule :| Execute(c, s, schedule) == Some(t);
      RunOnward(c, s, schedule, t);
      ReachableInv(c, s);
      RunInv(c, s, schedule, t);
      WrittenNotStarved(c, t, Client);
      WrittenNotStarved(c, t, Server);
    }
  }

  /** A host whose peer is about to write its last byte waits for that byte only. */
  lemma NotBlockedBefore(c: Config, s: State, p: Role)
    requires c.Valid() && Inv(c, s) && s.Of(p).pc == WSend && s.Of(p.Peer()).pc != WRecv
    ensures s.Of(p.Peer()).pc != Done && !Blocked(s, p.Peer())
  {
    Synced(c, s, p.Peer());
    assert s.client.pc == Poll1 && s.client.cq == [] ==> Idx(s.server.pc) <= 9;
  }

  lemma Unblocked(s: State, p: Role) returns (r: Role)
    requires s.Of(p).pc != Done
    requires (s.client.pc != Done && !Blocked(s, Client)) || (s.server.pc != Done && !Blocked(s, Server))
    ensures s.Of(r).pc != Done && !Blocked(s, r)
  {
    r := if !Blocked(s, p) then p else p.Peer();
  }

  lemma BeforeLastWrite(pc: Pc)
    requires Idx(pc) <= 20 && pc != WSend
    ensures Idx(pc) < 20 && pc != Done
  {
  }

  lemma WhoMoves(c: Config, s: State, p: Role) returns (r: Role)
    requires c.Valid() && Inv(c, s) && Idx(s.Of(p).pc) <= 20 && !(s.Of(p).pc == WSend && s.Of(p.Peer()).pc == WRecv)
    ensures s.Of(r).pc != Done && !Blocked(s, r) && (r == p ==> Idx(s.Of(p).pc) < 20)
  {
    if s.Of(p).pc == WSend {
      NotBlockedBefore(c, s, p);
      r := p.Peer();
    } else {
      BeforeLastWrite(s.Of(p).pc);
      NoDeadlock(c, s);
      r := Unblocked(s, p);
    }
  }

  lemma PointOnPath(c: Config, s: State, p: Role)
    requires c.Valid() && Inv(c, s)
    ensures OnPath(p, s.Of(p).pc)
  {
  }

  lemma TowardsWrite(c: Config, s: State, p: Role) returns (a: Action, m: State)
    requires c.Valid() && Good(c, s) && Idx(s.Of(p).pc) <= 20 && !(s.Of(p).pc == WSend && s.Of(p.Peer()).pc == WRecv)
    ensures !a.ZeroRead? && Next(c, s, a) == Some(m) && Good(c, m) && Idx(m.Of(p).pc) <= 20
  {
    var r := WhoMoves(c, s, p);
    a, m := GoodMoveBy(c, s, r);
    PointOnPath(c, s, p);
    StepOnward(c, s, a, m, p);
  }

  /** Without a failure the two get to where `p` is about to write its last byte and the other reads it. */
  lemma {:induction false} ToLastWrite(c: Config, s: State, p: Role) returns (t: State)
    requires c.Valid() && Good(c, s) && Sized(s.client) && Sized(s.server) && Idx(s.Of(p).pc) <= 20
    ensures LeadsTo(c, s, t) && Good(c, t) && t.Of(p).pc == WSend && t.Of(p.Peer()).pc == WRecv
    decreases Left(s.client) + Left(s.server)
  {
    if s.Of(p).pc == WSend && s.Of(p.Peer()).pc == WRecv {
      t := s;
      LeadsToSelf(c, s);
    } else {
      var a, m := TowardsWrite(c, s, p);
      StepSpends(c, s, a, m);
      LeftNonNegative(c, m);
      t := ToLastWrite(c, m, p);
      LeadsToFirst(c, s, a, m, t);
    }
  }

  lemma FailsAndCloses(c: Config, s: State, p: Role) returns (t: State)
    requires c.Valid() && Sized(s.client) && Sized(s.server) && s.Of(p).status == Running && Calls(s.Of(p).pc)
    ensures LeadsTo(c, s, t) && t == s.With(p, s.Of(p).(status := Gone))
  {
    var m := s.With(p, s.Of(p).(status := Failed));
    t := s.With(p, s.Of(p).(status := Gone));
    LeadsToSelf(c, s);
    LeadsToStep(c, s, s, Fail(p), m);
    LeadsToStep(c, s, m, Destroy(p), t);
  }

  lemma LastWriteFails(c: Config, s: State, p: Role) returns (t: State)
    requires c.Valid() && Good(c, s) && s.Of(p).pc == WSend && s.Of(p.Peer()).pc == WRecv
    ensures StarvedAt(t, p.Peer()) && Sized(s.client) && Sized(s.server) && LeadsTo(c, s, t)
  {
    t := FailsAndCloses(c, s, p);
    AtLastRead(c, s, p);
  }

  lemma AtLastRead(c: Config, s: State, p: Role)
    requires c.Valid() && Streams(c, s) && s.Of(p).pc == WSend && s.Of(p.Peer()).pc == WRecv
    ensures s.Of(p.Peer()).nread == |s.Of(p).sent|
  {
    assert Written(c, p, s.Of(p)) && Taken(c, p.Peer(), s.Of(p.Peer()), s.Of(p).sent);
  }

  /** As long as nothing has failed or been overrun, a side can still be left reading for ever
      iff not both have written their last byte. */
  lemma CanStarveIff(c: Config, schedule: seq<Action>, s: State)
    requires c.Valid() && AllFaultless(schedule) && Execute(c, Initial(c), schedule) == Some(s) && NoOverrun(s)
    ensures CanStarve(c, s) <==> !BothWritten(s)
  {
    assert Reachable(c, s);
    InitialInv(c);
    RunGood(c, Initial(c), schedule, s);
    if BothWritten(s) {
      WrittenNeverStarves(c, s);
    } else {
      var p := if Idx(s.client.pc) <= 20 then Client else Server;
      var t := ToLastWrite(c, s, p);
      var u := LastWriteFails(c, t, p);
      LeadsToThrough(c, s, t, u);
    }
  }

  lemma LeadsToThrough(c: Config, s: State, t: State, u: State)
    requires c.Valid() && Sized(s.client) && Sized(s.server) && Sized(t.client) && Sized(t.server)
    requires LeadsTo(c, s, t) && LeadsTo(c, t, u)
    ensures LeadsTo(c, s, u)
  {
    var first :| Execute(c, s, first) == Some(t);
    var rest :| Execute(c, t, rest) == Some(u);
    ExecuteConcat(c, s, first, t, rest, u);
  }

  // ---------- where runs come to rest ----------

  /** What happens without a failure: a successful step, or the time-out of a poll. */
  predicate ByItself(s: State, a: Action) {
    !a.ZeroRead? && (Faultless(a) || (a.Fail? && Polls(s.Of(a.r).pc) && s.Of(a.r).cq == []))
  }

  ghost predicate AtRest(c: Config, s: State)
    requires c.Valid() && Sized(s.client) && Sized(s.server)
  {
    forall a :: ByItself(s, a) ==> Next(c, s, a).None?
  }

  /** A side that does nothing any more but read in vain. */
  predicate Ended(s: State, r: Role) {
    s.Of(r).status == Gone || StarvedAt(s, r)
  }

  /** At a read with something left to read, a read is possible. */
  lemma ReadPossible(c: Config, r: Role, h: Host, p: Host)
    requires c.Valid() && Local(c, r, h) && Whole(c, h, p) && h.status == Running && h.pc == ConRecv
    requires h.nread < |p.sent| && (p.status != Gone ==> h.nread < RECORD_SIZE <= |p.sent| && |h.got| == h.nread)
    ensures ReadRecord(c, h, p.sent, p.status == Gone, if |p.sent| - h.nread < RECORD_SIZE then |p.sent| - h.nread else RECORD_SIZE).Some?
  {
  }

  lemma CallReadOrPoll(c: Config, r: Role, h: Host, peer: seq<byte>)
    requires c.Valid() && Local(c, r, h) && h.status == Running
    requires (ReadsByte(h.pc) && h.nread < |peer|) || (Polls(h.pc) && h.cq != [])
    ensures HostStep(c, r, h, peer).Some?
  {
  }

  lemma RestingStatus(c: Config, s: State, r: Role)
    requires c.Valid() && Sized(s.client) && Sized(s.server) && AtRest(c, s) && s.Of(r).status != Overrun
    ensures s.Of(r).status == Gone || (s.Of(r).status == Running && s.Of(r).pc != Done)
  {
    assert ByItself(s, Destroy(r));
  }

  lemma PollsGoOn(c: Config, s: State, r: Role)
    requires c.Valid() && Local(c, r, s.Of(r)) && Sized(s.client) && Sized(s.server)
    requires s.Of(r).status == Running && Polls(s.Of(r).pc)
    ensures var a := if s.Of(r).cq == [] then Fail(r) else Act(r);
            ByItself(s, a) && Next(c, s, a).Some?
  {
    if s.Of(r).cq != [] {
      CallReadOrPoll(c, r, s.Of(r), s.Of(r.Peer()).sent);
    }
  }

  lemma RestingReads(c: Config, s: State, r: Role)
    requires c.Valid() && Inv(c, s) && Sized(s.client) && Sized(s.server) && AtRest(c, s) && s.Of(r).status == Running
    ensures AtRead(s.Of(r).pc)
  {
    RestingStatus(c, s, r);
    if Polls(s.Of(r).pc) {
      PollsGoOn(c, s, r);
    } else if !AtRead(s.Of(r).pc) {
      assert ByItself(s, Act(r));
      NothingToRefuse(c, s, r);
    }
  }

  lemma RecordDry(c: Config, s: State, r: Role)
    requires c.Valid() && Inv(c, s) && Sized(s.client) && Sized(s.server) && AtRest(c, s) && BothWhole(c, s)
    requires s.Of(r).status == Running && s.Of(r).pc == ConRecv
    requires s.Of(r.Peer()).status == Gone || s.Of(r.Peer()).status == Running
    ensures s.Of(r).nread >= |s.Of(r.Peer()).sent|
  {
    var h, p := s.Of(r), s.Of(r.Peer());
    if h.nread < |p.sent| {
      if p.status != Gone {
        SentRecord(c, s, r);
        RecordThere(c, s, r);
      }
      var n := if |p.sent| - h.nread < RECORD_SIZE then |p.sent| - h.nread else RECORD_SIZE;
      assert ByItself(s, Read(r, n));
      ReadPossible(c, r, h, p);
    }
  }

  lemma ByteDry(c: Config, s: State, r: Role)
    requires c.Valid() && Local(c, r, s.Of(r)) && Sized(s.client) && Sized(s.server) && AtRest(c, s)
    requires s.Of(r).status == Running && ReadsByte(s.Of(r).pc)
    ensures s.Of(r).nread >= |s.Of(r.Peer()).sent|
  {
    if s.Of(r).nread < |s.Of(r.Peer()).sent| {
      assert ByItself(s, Act(r));
      CallReadOrPoll(c, r, s.Of(r), s.Of(r.Peer()).sent);
    }
  }

  /** Nothing is left to read. */
  lemma RestingDry(c: Config, s: State, r: Role)
    requires c.Valid() && Inv(c, s) && Sized(s.client) && Sized(s.server) && AtRest(c, s) && BothWhole(c, s) && NoOverrun(s)
    requires s.Of(r).status == Running && AtRead(s.Of(r).pc)
    ensures s.Of(r).nread >= |s.Of(r.Peer()).sent|
  {
    RestingStatus(c, s, r.Peer());
    if s.Of(r).pc == ConRecv {
      RecordDry(c, s, r);
    } else {
      ByteDry(c, s, r);
    }
  }

  /** Who is running and has written something has written the record. */
  lemma SentRecord(c: Config, s: State, r: Role)
    requires c.Valid() && Streams(c, s) && s.Of(r.Peer()).status == Running && s.Of(r.Peer()).sent != []
    ensures s.Of(r.Peer()).pc != ConSend
  {
    assert Written(c, r.Peer(), s.Of(r.Peer()));
  }

  lemma NotBothDry(c: Config, s: State)
    requires c.Valid() && Inv(c, s)
    requires AtRead(s.client.pc) && AtRead(s.server.pc)
    ensures s.client.nread < |s.server.sent| || s.server.nread < |s.client.sent|
  {
    NoDeadlock(c, s);
    var r := if !Blocked(s, Client) then Client else Server;
    if s.Of(r).pc == ConRecv {
      RecordThere(c, s, r);
    } else {
      ByteThere(c, s, r);
    }
  }

  lemma RestingEnded(c: Config, s: State, r: Role)
    requires c.Valid() && Inv(c, s) && Sized(s.client) && Sized(s.server) && AtRest(c, s) && BothWhole(c, s) && NoOverrun(s)
    ensures Ended(s, r)
  {
    RestingStatus(c, s, r);
    RestingStatus(c, s, r.Peer());
    if s.Of(r).status == Running {
      RestingReads(c, s, r);
      RestingDry(c, s, r);
      if s.Of(r.Peer()).status == Running {
        RestingReads(c, s, r.Peer());
        RestingDry(c, s, r.Peer());
        NotBothDry(c, s);
      } else {
        assert Taken(c, r, s.Of(r), s.Of(r.Peer()).sent);
      }
    }
  }

  /** Nobody's request is about to act on the other side. */
  predicate NothingUnderWay(c: Config, s: State)
    requires c.Valid() && Sized(s.client) && Sized(s.server)
  {
    Next(c, s, NetDeliver(Client)).None? && Next(c, s, NetDeliver(Server)).None?
  }

  lemma GoneSteps(c: Config, s: State, a: Action)
    requires c.Valid() && Sized(s.client) && Sized(s.server) && s.Of(a.r).status == Gone && !a.NetDeliver?
    ensures Next(c, s, a).None?
  {
  }

  lemma StarvedQueues(c: Config, s: State, r: Role)
    requires c.Valid() && Inv(c, s) && AtRead(s.Of(r).pc)
    ensures s.Of(r).sq == []
  {
  }

  lemma StarvedSteps(c: Config, s: State, a: Action)
    requires c.Valid() && Sized(s.client) && Sized(s.server) && StarvedAt(s, a.r) && s.Of(a.r).sq == [] && ByItself(s, a)
    ensures Next(c, s, a).None?
  {
    var h, p := s.Of(a.r), s.Of(a.r.Peer());
    if a.Act? {
      assert HostStep(c, a.r, h, p.sent).None?;
    }
  }

  lemma EndedSteps(c: Config, s: State, a: Action)
    requires c.Valid() && Inv(c, s) && Sized(s.client) && Sized(s.server) && NothingUnderWay(c, s)
    requires Ended(s, a.r) && ByItself(s, a)
    ensures Next(c, s, a).None?
  {
    if a.NetDeliver? {
      assert a == NetDeliver(Client) || a == NetDeliver(Server);
    } else if s.Of(a.r).status == Gone {
      GoneSteps(c, s, a);
    } else {
      StarvedQueues(c, s, a.r);
      StarvedSteps(c, s, a);
    }
  }

  lemma RestEnds(c: Config, s: State)
    requires c.Valid() && Inv(c, s) && Sized(s.client) && Sized(s.server) && BothWhole(c, s) && NoOverrun(s) && AtRest(c, s)
    ensures Ended(s, Client) && Ended(s, Server) && NothingUnderWay(c, s)
  {
    RestingEnded(c, s, Client);
    RestingEnded(c, s, Server);
    assert ByItself(s, NetDeliver(Client)) && ByItself(s, NetDeliver(Server));
  }

  lemma EndsRest(c: Config, s: State)
    requires c.Valid() && Inv(c, s) && Sized(s.client) && Sized(s.server)
    requires Ended(s, Client) && Ended(s, Server) && NothingUnderWay(c, s)
    ensures AtRest(c, s)
  {
    forall a | ByItself(s, a) ensures Next(c, s, a).None? {
      assert Ended(s, a.r);
      EndedSteps(c, s, a);
    }
  }

  /** Without a failure nothing more happens but reads in vain iff each side has destroyed its
      resources or reads for ever from a connection that the other has closed, and no request
      is still under way.  So a side that does not end is at a read, and its peer has gone. */
  lemma AtRestIff(c: Config, s: State)
    requires c.Valid() && Reachable(c, s) && Sized(s.client) && Sized(s.server) && NoOverrun(s)
    ensures AtRest(c, s) <==> Ended(s, Client) && Ended(s, Server) && NothingUnderWay(c, s)
  {
    ReachableInv(c, s);
    ReachableWhole(c, s);
    if AtRest(c, s) {
      RestEnds(c, s);
    } else if Ended(s, Client) && Ended(s, Server) && NothingUnderWay(c, s) {
      EndsRest(c, s);
    }
  }
}

/**
  What holds of every run of the exchange, whatever the interleaving and whatever fails, and
  what holds of a run in which nothing fails.
 */
module ExchangeTheorems {
  import opened Wrappers
  import opened ExchangeWire
  import opened ExchangeMachine
  import opened ExchangeInvariant

  // ---------- safety ----------

  lemma {:induction false} RunInv(c: Config, s: State, schedule: seq<Action>, s': State)
    requires c.Valid() && Inv(c, s) && Execute(c, s, schedule) == Some(s')
    ensures Inv(c, s')
    decreases |schedule|
  {
    if schedule != [] {
      var mid := Next(c, s, schedule[0]).value;
      StepInv(c, s, schedule[0], mid);
      RunInv(c, mid, schedule[1..], s');
    }
  }

  lemma ReachableInv(c: Config, s: State)
    requires c.Valid() && Reachable(c, s)
    ensures Inv(c, s)
  {
    var schedule :| Execute(c, Initial(c), schedule) == Some(s);
    InitialInv(c);
    RunInv(c, Initial(c), schedule, s);
  }

  /** What each side prints, it prints rightly: the client the message and then what it read
      from the server's buffer, the server what the client wrote there. */
  lemma EndToEnd(c: Config, s: State)
    requires c.Valid() && Reachable(c, s)
    ensures s.client.out <= [c.msg, c.forRead]
    ensures s.server.out <= [c.forWrite]
    ensures s.client.pc == Done ==> s.client.out == [c.msg, c.forRead]
    ensures s.server.pc == Done ==> s.server.out == [c.forWrite]
  {
    PrintedSoFar(c, s.client, s.server) by { ReachableInv(c, s); }
  }

  lemma PrintedSoFar(c: Config, cl: Host, sv: Host)
    requires Printed(c, cl, sv)
    ensures cl.out <= [c.msg, c.forRead] && sv.out <= [c.forWrite]
    ensures cl.pc == Done ==> cl.out == [c.msg, c.forRead]
    ensures sv.pc == Done ==> sv.out == [c.forWrite]
  {
  }

  /** Until the message has been delivered the client's buffer prints as nothing, and after
      that, up to its RDMA READ, as the message; the server's prints as the message until it is
      replaced by the text to be read. */
  lemma BuffersSoFar(c: Config, s: State)
    requires c.Valid() && Reachable(c, s)
    ensures !GotMessage(s.client) ==> CString(s.client.buf) == ""
    ensures GotMessage(s.client) && Idx(s.client.pc) <= 14 ==> CString(s.client.buf) == c.msg
    ensures Idx(s.server.pc) <= 11 ==> CString(s.server.buf) == c.msg
  {
    BufferTexts(c, s.client, s.server) by { ReachableInv(c, s); }
  }

  lemma BufferTexts(c: Config, cl: Host, sv: Host)
    requires c.Valid() && ClientQueues(cl) && ClientData(c, cl, sv) && ServerData(c, cl, sv)
    ensures !GotMessage(cl) ==> CString(cl.buf) == ""
    ensures GotMessage(cl) && Idx(cl.pc) <= 14 ==> CString(cl.buf) == c.msg
    ensures Idx(sv.pc) <= 11 ==> CString(sv.buf) == c.msg
  {
    CStringOfText(c.msg);
  }

  const MSG: string := "SEND operation      "
  const RDMAMSGR: string := "RDMA read operation "
  const RDMAMSGW: string := "RDMA write operation"

  /** So with the texts the program has. */
  lemma ProgramTexts(client: ConData, server: ConData, shortReads: bool)
    requires client.Valid() && server.Valid()
    ensures Config(MSG, RDMAMSGR, RDMAMSGW, client, server, shortReads).Valid()
  {
  }

  /** Once a side has taken the peer's record apart, it has the peer's own values, and it
      connects its queue pair to the peer's. */
  lemma ConnectedToPeer(c: Config, s: State, r: Role)
    requires c.Valid() && Reachable(c, s)
    ensures s.Of(r).remote.Some? ==> s.Of(r).remote.value == c.Props(r.Peer())
    ensures s.Of(r).dest.Some? ==> s.Of(r).dest.value == c.Props(r.Peer())
  {
    assert Local(c, r, s.Of(r)) by { ReachableInv(c, s); }
  }

  // ---------- readiness and capacity ----------

  /** A message that is under way finds the client ready: connected, its queue pair ready to
      receive and its one receive request still there.  So it can be delivered, unless the
      client has destroyed its resources. */
  lemma MessageFindsReceiver(c: Config, s: State)
    requires c.Valid() && Reachable(c, s)
    requires s.server.sq != [] && s.server.sq[0].progress != Delivered
    ensures s.server.sq[0].op == Send && s.client.rq == 1 && s.client.qp == Rts
    ensures s.server.sq[0].progress == InFlight && s.client.status != Gone ==> Next(c, s, NetDeliver(Server)).Some?
  {
    MessageReady(c, s) by { ReachableInv(c, s); }
  }

  lemma MessageReady(c: Config, s: State)
    requires c.Valid() && Inv(c, s)
    requires s.server.sq != [] && s.server.sq[0].progress != Delivered
    ensures s.server.sq[0].op == Send && s.client.rq == 1 && s.client.qp == Rts
    ensures s.server.sq[0].progress == InFlight && s.client.status != Gone ==> Deliver(c, Server, s.server, s.client).Some?
  {
    Synced(c, s, Server);
    assert s.server.pc == Poll1;
    assert 6 < Idx(s.client.pc) <= 9 && s.client.rq == 1;
  }

  lemma ServerReady(c: Config, s: State)
    requires c.Valid() && Inv(c, s)
    requires s.client.sq != []
    ensures s.client.sq[0].op != Send && s.server.qp == Rts
    ensures s.client.sq[0].progress == InFlight && s.server.status != Gone ==> Deliver(c, Client, s.client, s.server).Some?
  {
    Synced(c, s, Client);
    assert s.client.pc == Poll2 || s.client.pc == Poll3;
    assert Idx(s.server.pc) > 12;
  }

  /** The client's requests find the server's queue pair ready and its memory as announced. */
  lemma RequestFindsServer(c: Config, s: State)
    requires c.Valid() && Reachable(c, s) && s.client.sq != []
    ensures s.client.sq[0].op != Send && s.server.qp == Rts
    ensures s.client.sq[0].progress == InFlight && s.server.status != Gone ==> Next(c, s, NetDeliver(Client)).Some?
  {
    ServerReady(c, s) by { ReachableInv(c, s); }
  }

  /** No queue ever holds more than the one entry it was created with. */
  lemma Capacity(c: Config, s: State, r: Role)
    requires c.Valid() && Reachable(c, s)
    ensures |s.Of(r).sq| <= 1 && s.Of(r).rq <= 1 && |s.Of(r).cq| <= 1
  {
    assert ClientQueues(s.client) && ServerQueues(s.client, s.server) by { ReachableInv(c, s); }
  }
}

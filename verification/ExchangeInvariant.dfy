/**
  The inductive invariant of the exchange: where each host stands, what the two TCP streams
  say about the other, what is queued, and what is in the two buffers.
 */
module ExchangeInvariant {
  import opened Wrappers
  import opened Bytes
  import opened ExchangeWire
  import opened ExchangeMachine

  // ---------- one host and the peer's stream ----------

  predicate OnPath(r: Role, pc: Pc) {
    if r == Client then pc != PostSend && pc != Copy1 && pc != Print3
    else pc != PostRecv && pc != Print1 && !(14 <= Idx(pc) <= 19)
  }

  /** Bytes written, and bytes read, by the time the program is at `pc`. */
  function SentAt(pc: Pc): nat {
    var i := Idx(pc);
    if i <= 0 then 0 else if i <= 6 then 34 else if i <= 12 then 35 else if i <= 20 then 36 else 37
  }

  function ReadAt(pc: Pc): nat {
    var i := Idx(pc);
    if i <= 1 then 0 else if i <= 7 then 34 else if i <= 13 then 35 else if i <= 21 then 36 else 37
  }

  function QpAt(pc: Pc): QpState {
    var i := Idx(pc);
    if i <= 2 then Reset else if i <= 4 then Init else if i == 5 then Rtr else Rts
  }

  /** What a host has written is the part of its script that its program counter says. */
  ghost predicate Written(c: Config, r: Role, h: Host)
    requires c.Valid()
  {
    if h.pc == ConSend
    then |h.sent| < RECORD_SIZE && h.sent == c.Script(r)[..|h.sent|] && (h.status == Running ==> h.sent == [])
    else h.sent == c.Script(r)[..SentAt(h.pc)]
  }

  /** What a host has read is the part of the peer's script that its program counter says. */
  ghost predicate Taken(c: Config, r: Role, h: Host, peer: seq<byte>)
    requires c.Valid()
  {
    && h.nread <= |peer|
    && (if h.pc == ConRecv
        then h.nread < RECORD_SIZE && h.got == c.Script(r.Peer())[..h.nread]
        else h.nread == ReadAt(h.pc))
  }

  ghost predicate Streams(c: Config, s: State)
    requires c.Valid()
  {
    && Written(c, Client, s.client) && Taken(c, Client, s.client, s.server.sent)
    && Written(c, Server, s.server) && Taken(c, Server, s.server, s.client.sent)
  }

  ghost predicate Local(c: Config, r: Role, h: Host)
    requires c.Valid()
  {
    && OnPath(r, h.pc) && Sized(h) && |h.got| <= RECORD_SIZE
    && (h.pc == ConSend ==> h.got == [])
    && h.remote == (if Idx(h.pc) > 1 then Some(c.Props(r.Peer())) else None)
    && h.dest == (if Idx(h.pc) > 4 then Some(c.Props(r.Peer())) else None)
    && (h.status == Overrun ==> h.pc == ConRecv)
  }

  /** A queue pair is broken only while its owner waits for a request that was given up. */
  predicate QpOk(r: Role, h: Host) {
    && (h.qp == QpAt(h.pc) || (h.qp == Broken && Waits(r, h.pc)))
    && (h.qp == Broken ==> h.status != Running || h.cq == [Error])
  }

  // ---------- queues ----------

  /** A program point that waits for a completion of a request of its own. */
  predicate Waits(r: Role, pc: Pc) {
    pc == Poll2 || pc == Poll3 || (r == Server && pc == Poll1)
  }

  function OpAt(pc: Pc): Op {
    if pc == Poll1 then Send else if pc == Poll2 then RdmaRead else RdmaWrite
  }

  /** One request or its completion while the host waits, nothing otherwise. */
  predicate Queues(r: Role, h: Host) {
    if Waits(r, h.pc) then
      && |h.sq| + |h.cq| <= 1
      && (h.status == Running ==> |h.sq| + |h.cq| == 1)
      && (h.sq != [] ==> h.sq[0].op == OpAt(h.pc))
      && (h.cq != [] && h.status == Running ==> h.cq[0] == Error ==> h.qp == Broken)
    else h.sq == []
  }

  /** The client's receive request has been used up. */
  predicate GotMessage(cl: Host) {
    Idx(cl.pc) > 3 && cl.rq == 0
  }

  predicate ServerQueues(cl: Host, sv: Host) {
    && sv.rq == 0
    && Queues(Server, sv)
    && (sv.pc != Poll1 ==> sv.cq == [])
    && (Idx(sv.pc) < 9 ==> !GotMessage(cl))
    && (Idx(sv.pc) > 9 ==> GotMessage(cl))
    && (sv.pc == Poll1 ==>
         && (sv.sq != [] ==> (sv.sq[0].progress == Delivered <==> GotMessage(cl)))
         && (sv.cq == [Success] ==> GotMessage(cl)))
  }

  predicate ClientQueues(cl: Host) {
    && cl.rq <= 1 && (Idx(cl.pc) <= 3 ==> cl.rq == 0)
    && Queues(Client, cl)
    && (Idx(cl.pc) > 9 ==> GotMessage(cl))
    && (Idx(cl.pc) <= 9 ==> cl.cq == if GotMessage(cl) then [Success] else [])
    && (Idx(cl.pc) > 9 && !Waits(Client, cl.pc) ==> cl.cq == [])
  }

  // ---------- buffers ----------

  predicate ServerData(c: Config, cl: Host, sv: Host) {
    && (Idx(sv.pc) <= 11 ==> sv.buf == c.MsgBuf())
    && (Idx(sv.pc) > 11 ==> sv.buf == c.ReadBuf() || sv.buf == c.WriteBuf())
    && (Idx(sv.pc) > 11 && Idx(cl.pc) <= 18 ==> sv.buf == c.ReadBuf())
    && (Idx(cl.pc) > 19 ==> sv.buf == c.WriteBuf())
    && (sv.sq != [] && sv.sq[0].progress != Posted ==> sv.sq[0].data == c.MsgBuf())
  }

  predicate Blank(buf: string) {
    buf != [] && buf[0] == '\0'
  }

  predicate ClientData(c: Config, cl: Host, sv: Host) {
    && (Idx(cl.pc) <= 14 ==> if GotMessage(cl) then cl.buf == c.MsgBuf() else Blank(cl.buf))
    && (cl.pc == Poll2 ==>
         && (cl.sq != [] && cl.sq[0].progress == Delivered ==> cl.sq[0].data == c.ReadBuf())
         && (cl.cq == [Success] ==> cl.buf == c.ReadBuf()))
    && (cl.pc == Print2 || cl.pc == Copy2 ==> cl.buf == c.ReadBuf())
    && (cl.pc == PostWrite || cl.pc == Poll3 ==> cl.buf == c.WriteBuf())
    && (cl.pc == Poll3 ==>
         && (cl.sq != [] && cl.sq[0].progress != Posted ==> cl.sq[0].data == c.WriteBuf())
         && ((cl.sq != [] && cl.sq[0].progress == Delivered) || cl.cq == [Success] ==> sv.buf == c.WriteBuf()))
  }

  predicate Printed(c: Config, cl: Host, sv: Host) {
    && cl.out == (if Idx(cl.pc) <= 10 then [] else if Idx(cl.pc) <= 16 then [c.msg] else [c.msg, c.forRead])
    && sv.out == (if Idx(sv.pc) <= 22 then [] else [c.forWrite])
  }

  // ---------- the invariant ----------

  ghost predicate Inv(c: Config, s: State)
    requires c.Valid()
  {
    && Local(c, Client, s.client) && Local(c, Server, s.server)
    && QpOk(Client, s.client) && QpOk(Server, s.server)
    && Streams(c, s)
    && ClientQueues(s.client) && ServerQueues(s.client, s.server)
    && ServerData(c, s.client, s.server) && ClientData(c, s.client, s.server)
    && Printed(c, s.client, s.server)
  }

  /** What a byte read says about the peer: it has got as far as writing it. */
  lemma Synced(c: Config, s: State, r: Role)
    requires c.Valid() && Streams(c, s)
    ensures Idx(s.Of(r).pc) > 7 ==> Idx(s.Of(r.Peer()).pc) > 6
    ensures Idx(s.Of(r).pc) > 13 ==> Idx(s.Of(r.Peer()).pc) > 12
    ensures Idx(s.Of(r).pc) > 21 ==> Idx(s.Of(r.Peer()).pc) > 20
  {
  }

  lemma InitialInv(c: Config)
    requires c.Valid()
    ensures Inv(c, Initial(c))
  {
    StrcpyFills(Zeros(BUF_SIZE), c.msg);
  }

  // ---------- steps of a program ----------

  /** How the program points of one side follow each other. */
  lemma PathNext(r: Role, pc: Pc)
    requires OnPath(r, pc) && pc != Done
    ensures OnPath(r, NextPc(r, pc))
    ensures (Idx(NextPc(r, pc)) > 1 <==> pc != ConSend) && (Idx(NextPc(r, pc)) > 4 <==> Idx(pc) >= 4)
  {
  }

  lemma SentNext(r: Role, pc: Pc)
    requires OnPath(r, pc) && pc != Done
    ensures SentAt(NextPc(r, pc)) == if pc == ConSend then RECORD_SIZE else if WritesByte(pc) then SentAt(pc) + 1 else SentAt(pc)
  {
  }

  lemma ReadNext(r: Role, pc: Pc)
    requires OnPath(r, pc) && pc != Done
    ensures ReadAt(NextPc(r, pc)) == if pc == ConRecv then RECORD_SIZE else if ReadsByte(pc) then ReadAt(pc) + 1 else ReadAt(pc)
  {
  }

  lemma ClientNext(pc: Pc)
    requires OnPath(Client, pc) && pc != Done
    ensures var next := NextPc(Client, pc);
            && Idx(next) == Idx(pc) + (if pc == QRecv then 2 else if pc == Print1 then 2 else if pc == WRecv then 2 else 1)
            && (Waits(Client, next) <==> pc == PostRead || pc == PostWrite)
  {
  }

  lemma ServerNext(pc: Pc)
    requires OnPath(Server, pc) && pc != Done
    ensures var next := NextPc(Server, pc);
            && Idx(next) == Idx(pc) + (if pc == ToInit then 2 else if pc == Poll1 then 2 else if pc == RRecv then 7 else 1)
            && (Waits(Server, next) <==> pc == PostSend)
  {
  }

  lemma HostLocal(c: Config, r: Role, h: Host, peer: seq<byte>, h': Host)
    requires c.Valid() && Local(c, r, h) && Moved(c, r, h, peer, h')
    ensures Local(c, r, h')
  {
    PathNext(r, h.pc);
  }

  lemma QpNext(r: Role, pc: Pc)
    requires OnPath(r, pc) && pc != Done
    ensures QpAt(NextPc(r, pc)) == if pc == ToInit then Init else if pc == ToRtr then Rtr else if pc == ToRts then Rts else QpAt(pc)
  {
    if r == Client {
      ClientNext(pc);
    } else {
      ServerNext(pc);
    }
  }

  lemma HostQp(c: Config, r: Role, h: Host, peer: seq<byte>, h': Host)
    requires c.Valid() && Local(c, r, h) && QpOk(r, h) && Queues(r, h) && Moved(c, r, h, peer, h')
    ensures QpOk(r, h')
  {
    QpNext(r, h.pc);
  }

  lemma ByteWritten(c: Config, r: Role, h: Host, peer: seq<byte>, h': Host)
    requires c.Valid() && Sized(h) && Written(c, r, h) && WritesByte(h.pc) && Moved(c, r, h, peer, h')
    ensures Written(c, r, h') && |h.sent| <= |h'.sent|
  {
    var whole, k := c.Script(r), SentAt(h.pc);
    assert whole[..k + 1] == whole[..k] + [whole[k]];
  }

  lemma HostWritten(c: Config, r: Role, h: Host, peer: seq<byte>, h': Host)
    requires c.Valid() && Local(c, r, h) && Written(c, r, h) && Moved(c, r, h, peer, h')
    ensures Written(c, r, h') && |h.sent| <= |h'.sent|
  {
    SentNext(r, h.pc);
    PathNext(r, h.pc);
    if WritesByte(h.pc) {
      ByteWritten(c, r, h, peer, h');
    } else if h.pc == ConSend {
      assert c.Script(r)[..34] == Encode(c.Props(r));
    }
  }

  lemma HostTaken(c: Config, r: Role, h: Host, peer: seq<byte>, h': Host)
    requires c.Valid() && Local(c, r, h) && Taken(c, r, h, peer) && Moved(c, r, h, peer, h')
    ensures Taken(c, r, h', peer)
  {
    ReadNext(r, h.pc);
    PathNext(r, h.pc);
  }

  lemma ClientStepQueues(c: Config, cl: Host, sv: Host, cl': Host)
    requires c.Valid() && Local(c, Client, cl) && ClientQueues(cl) && Moved(c, Client, cl, sv.sent, cl')
    ensures ClientQueues(cl') && (GotMessage(cl') <==> GotMessage(cl))
  {
    ClientNext(cl.pc);
  }

  lemma ServerStepQueues(c: Config, cl: Host, sv: Host, sv': Host)
    requires c.Valid() && Local(c, Server, sv) && ClientQueues(cl) && ServerQueues(cl, sv)
    requires Moved(c, Server, sv, cl.sent, sv')
    ensures ServerQueues(cl, sv')
  {
    ServerNext(sv.pc);
  }

  /** What the order of the two programs, as the streams show it, means for the data. */
  ghost predicate InStep(cl: Host, sv: Host) {
    && (Idx(cl.pc) > 13 ==> Idx(sv.pc) > 12)
    && (Idx(sv.pc) > 21 ==> Idx(cl.pc) > 20)
  }

  lemma ClientStepServerData(c: Config, cl: Host, sv: Host, cl': Host)
    requires c.Valid() && Local(c, Client, cl) && ClientQueues(cl) && Moved(c, Client, cl, sv.sent, cl')
    requires ServerData(c, cl, sv) && ClientData(c, cl, sv)
    ensures ServerData(c, cl', sv)
  {
    ClientNext(cl.pc);
  }

  lemma ClientStepClientData(c: Config, cl: Host, sv: Host, cl': Host)
    requires c.Valid() && Local(c, Client, cl) && ClientQueues(cl) && Moved(c, Client, cl, sv.sent, cl')
    requires ClientData(c, cl, sv)
    ensures ClientData(c, cl', sv)
  {
    ClientNext(cl.pc);
    if cl'.status == Failed {
      assert cl'.pc == cl.pc && cl'.cq == cl.cq[1..];
      return;
    }
    assert cl'.pc == NextPc(Client, cl.pc);
    StrcpyFills(cl.buf, c.forWrite);
  }

  lemma ClientStepPrinted(c: Config, cl: Host, sv: Host, cl': Host)
    requires c.Valid() && Local(c, Client, cl) && ClientQueues(cl) && Moved(c, Client, cl, sv.sent, cl')
    requires ClientData(c, cl, sv) && Printed(c, cl, sv)
    ensures Printed(c, cl', sv)
  {
    ClientNext(cl.pc);
    if cl.pc == Print1 {
      CStringOfText(c.msg);
      assert cl'.out == [c.msg];
    } else if cl.pc == Print2 {
      CStringOfText(c.forRead);
      assert cl'.out == [c.msg, c.forRead];
    } else {
      assert cl'.out == cl.out;
      assert cl'.pc == NextPc(Client, cl.pc) || cl'.pc == cl.pc;
    }
  }

  lemma ServerStepServerData(c: Config, cl: Host, sv: Host, sv': Host)
    requires c.Valid() && Local(c, Server, sv) && ServerQueues(cl, sv) && Moved(c, Server, sv, cl.sent, sv')
    requires ServerData(c, cl, sv) && InStep(cl, sv)
    ensures ServerData(c, cl, sv')
  {
    ServerNext(sv.pc);
    assert sv'.buf == sv.buf || sv.pc == Copy1;
    assert sv'.pc == NextPc(Server, sv.pc) || sv'.pc == sv.pc;
    StrcpyFills(sv.buf, c.forRead);
  }

  lemma ServerStepClientData(c: Config, cl: Host, sv: Host, sv': Host)
    requires c.Valid() && Local(c, Server, sv) && Moved(c, Server, sv, cl.sent, sv')
    requires ClientData(c, cl, sv) && InStep(cl, sv)
    ensures ClientData(c, cl, sv')
  {
    ServerNext(sv.pc);
  }

  lemma ServerStepPrinted(c: Config, cl: Host, sv: Host, sv': Host)
    requires c.Valid() && Local(c, Server, sv) && Moved(c, Server, sv, cl.sent, sv')
    requires ServerData(c, cl, sv) && Printed(c, cl, sv) && InStep(cl, sv)
    ensures Printed(c, cl, sv')
  {
    ServerNext(sv.pc);
    CStringOfText(c.forWrite);
  }

  /** The next call of a program. */
  lemma ActInv(c: Config, s: State, r: Role, s': State)
    requires c.Valid() && Inv(c, s) && Next(c, s, Act(r)) == Some(s')
    ensures Inv(c, s')
  {
    var h, p, h' := s.Of(r), s.Of(r.Peer()), s'.Of(r);
    Synced(c, s, Client);
    Synced(c, s, Server);
    HostLocal(c, r, h, p.sent, h');
    HostQp(c, r, h, p.sent, h');
    HostWritten(c, r, h, p.sent, h');
    HostTaken(c, r, h, p.sent, h');
    if r == Client {
      ClientStepQueues(c, h, p, h');
      ClientStepServerData(c, h, p, h');
      ClientStepClientData(c, h, p, h');
      ClientStepPrinted(c, h, p, h');
    } else {
      ServerStepQueues(c, p, h, h');
      ServerStepServerData(c, p, h, h');
      ServerStepClientData(c, p, h, h');
      ServerStepPrinted(c, p, h, h');
    }
  }

  // ---------- reading the record ----------

  lemma PrefixGrows(whole: seq<byte>, there: nat, from: nat, n: nat)
    requires from + n <= there <= |whole|
    ensures whole[..from] + whole[..there][from..from + n] == whole[..from + n]
  {
  }

  /** What the record decodes to once it is complete. */
  lemma RecordComplete(c: Config, r: Role)
    requires c.Valid()
    ensures var record := c.Script(r)[..RECORD_SIZE];
            |record| == RECORD_SIZE && Decode(record) == c.Props(r)
  {
    var record := Encode(c.Props(r));
    PrefixOfConcat(record, [QBYTE, RBYTE, WBYTE], RECORD_SIZE);
    assert record[..RECORD_SIZE] == record;
    RecordRoundTrip(c.Props(r));
  }

  lemma RecordRead(c: Config, r: Role, h: Host, p: Host, n: nat, h': Host)
    requires c.Valid() && Local(c, r, h) && Taken(c, r, h, p.sent) && Written(c, r.Peer(), p)
    requires ReadRecord(c, h, p.sent, p.status == Gone, n) == Some(h')
    ensures Local(c, r, h') && Taken(c, r, h', p.sent)
  {
    PrefixGrows(c.Script(r.Peer()), |p.sent|, h.nread, n);
    if h.nread + n == RECORD_SIZE {
      RecordComplete(c, r.Peer());
    }
  }

  lemma ClientReadInv(c: Config, cl: Host, sv: Host, n: nat, cl': Host)
    requires c.Valid() && Inv(c, State(cl, sv)) && ReadRecord(c, cl, sv.sent, sv.status == Gone, n) == Some(cl')
    ensures Inv(c, State(cl', sv))
  {
    RecordRead(c, Client, cl, sv, n, cl');
    assert ClientQueues(cl') && ServerQueues(cl', sv);
    assert ServerData(c, cl', sv) && ClientData(c, cl', sv) && Printed(c, cl', sv);
  }

  lemma ServerReadInv(c: Config, cl: Host, sv: Host, n: nat, sv': Host)
    requires c.Valid() && Inv(c, State(cl, sv)) && ReadRecord(c, sv, cl.sent, cl.status == Gone, n) == Some(sv')
    ensures Inv(c, State(cl, sv'))
  {
    RecordRead(c, Server, sv, cl, n, sv');
    assert ServerQueues(cl, sv');
    assert ServerData(c, cl, sv') && ClientData(c, cl, sv') && Printed(c, cl, sv');
  }

  lemma ReadInv(c: Config, s: State, r: Role, n: nat, s': State)
    requires c.Valid() && Inv(c, s) && Next(c, s, Read(r, n)) == Some(s')
    ensures Inv(c, s')
  {
    if r == Client {
      ClientReadInv(c, s.client, s.server, n, s'.client);
    } else {
      ServerReadInv(c, s.client, s.server, n, s'.server);
    }
  }

  // ---------- failures ----------

  /** A host that stops, and may have written a part of its record first. */
  predicate Stops(c: Config, r: Role, h: Host, h': Host)
    requires c.Valid()
  {
    && (h'.status == Failed || h'.status == Gone) && h.status != Overrun
    && h' == h.(status := h'.status, sent := h'.sent)
    && (h'.sent == h.sent || (h.pc == ConSend && h.sent == [] && |h'.sent| < RECORD_SIZE && h'.sent == c.Script(r)[..|h'.sent|]))
  }

  lemma StopWritten(c: Config, r: Role, h: Host, h': Host)
    requires c.Valid() && Written(c, r, h) && Stops(c, r, h, h')
    ensures Written(c, r, h') && |h.sent| <= |h'.sent|
  {
  }

  lemma ClientStopStreams(c: Config, cl: Host, sv: Host, cl': Host)
    requires c.Valid() && Streams(c, State(cl, sv)) && Stops(c, Client, cl, cl')
    ensures Streams(c, State(cl', sv))
  {
    StopWritten(c, Client, cl, cl');
    assert Taken(c, Client, cl', sv.sent) && Taken(c, Server, sv, cl'.sent);
  }

  lemma ClientStopQueues(c: Config, cl: Host, sv: Host, cl': Host)
    requires c.Valid() && ClientQueues(cl) && ServerQueues(cl, sv) && QpOk(Client, cl) && Stops(c, Client, cl, cl')
    ensures ClientQueues(cl') && ServerQueues(cl', sv) && QpOk(Client, cl')
  {
  }

  lemma ClientStopInv(c: Config, cl: Host, sv: Host, cl': Host)
    requires c.Valid() && Inv(c, State(cl, sv)) && Stops(c, Client, cl, cl')
    ensures Inv(c, State(cl', sv))
  {
    ClientStopStreams(c, cl, sv, cl');
    ClientStopQueues(c, cl, sv, cl');
    assert ServerData(c, cl', sv) && ClientData(c, cl', sv) && Printed(c, cl', sv);
  }

  lemma ServerStopInv(c: Config, cl: Host, sv: Host, sv': Host)
    requires c.Valid() && Inv(c, State(cl, sv)) && Stops(c, Server, sv, sv')
    ensures Inv(c, State(cl, sv'))
  {
    StopWritten(c, Server, sv, sv');
    assert Written(c, Server, sv') && Taken(c, Server, sv', cl.sent) && Taken(c, Client, cl, sv'.sent);
    assert ServerQueues(cl, sv');
    assert ServerData(c, cl, sv') && ClientData(c, cl, sv') && Printed(c, cl, sv');
  }

  lemma PrefixOfConcat(a: seq<byte>, b: seq<byte>, n: nat)
    requires n <= |a|
    ensures (a + b)[..n] == a[..n]
  {
  }

  /** Writing the record fails half-way. */
  lemma FailSendStops(c: Config, r: Role, h: Host, n: nat)
    requires c.Valid() && Written(c, r, h) && h.status == Running && h.pc == ConSend && n < RECORD_SIZE
    ensures Stops(c, r, h, h.(status := Failed, sent := h.sent + Encode(c.Props(r))[..n]))
  {
    PrefixOfConcat(Encode(c.Props(r)), [QBYTE, RBYTE, WBYTE], n);
    assert h.sent + Encode(c.Props(r))[..n] == Encode(c.Props(r))[..n];
  }

  lemma StepStops(c: Config, s: State, a: Action, s': State)
    requires c.Valid() && Sized(s.client) && Sized(s.server) && Written(c, a.r, s.Of(a.r)) && Next(c, s, a) == Some(s')
    requires a.Fail? || a.FailSend? || a.Destroy?
    ensures Stops(c, a.r, s.Of(a.r), s'.Of(a.r)) && s' == s.With(a.r, s'.Of(a.r))
  {
    if a.FailSend? {
      FailSendStops(c, a.r, s.Of(a.r), a.n);
    }
  }

  // ---------- the network, a request of the client ----------

  lemma ClientFetchInv(c: Config, cl: Host, sv: Host, cl': Host)
    requires c.Valid() && Inv(c, State(cl, sv)) && Fetch(cl) == Some(cl')
    ensures Inv(c, State(cl', sv))
  {
    assert ClientQueues(cl') && ServerQueues(cl', sv);
    assert ServerData(c, cl', sv) && ClientData(c, cl', sv) && Printed(c, cl', sv);
  }

  lemma ReadDeliverInv(c: Config, cl: Host, sv: Host, cl': Host)
    requires c.Valid() && Inv(c, State(cl, sv)) && Deliver(c, Client, cl, sv) == Some((cl', sv)) && cl.pc == Poll2
    ensures Inv(c, State(cl', sv))
  {
    Synced(c, State(cl, sv), Client);
    assert sv.buf == c.ReadBuf();
    assert cl' == cl.(sq := [Request(RdmaRead, Delivered, sv.buf)]);
    assert ClientQueues(cl') && ServerQueues(cl', sv);
    assert ServerData(c, cl', sv) && ClientData(c, cl', sv) && Printed(c, cl', sv);
  }

  lemma WriteDeliverInv(c: Config, cl: Host, sv: Host, cl': Host, sv': Host)
    requires c.Valid() && Inv(c, State(cl, sv)) && Deliver(c, Client, cl, sv) == Some((cl', sv')) && cl.pc == Poll3
    ensures Inv(c, State(cl', sv'))
  {
    Synced(c, State(cl, sv), Client);
    assert cl.sq[0].data == c.WriteBuf();
    assert cl' == cl.(sq := [Request(RdmaWrite, Delivered, c.WriteBuf())]) && sv' == sv.(buf := c.WriteBuf());
    assert ClientQueues(cl') && ServerQueues(cl', sv');
    assert ServerData(c, cl', sv') && ClientData(c, cl', sv') && Printed(c, cl', sv');
  }

  lemma ClientDeliverInv(c: Config, cl: Host, sv: Host, cl': Host, sv': Host)
    requires c.Valid() && Inv(c, State(cl, sv)) && Deliver(c, Client, cl, sv) == Some((cl', sv'))
    ensures Inv(c, State(cl', sv'))
  {
    assert Waits(Client, cl.pc);
    if cl.pc == Poll2 {
      assert cl.sq[0].op == RdmaRead;
      ReadDeliverInv(c, cl, sv, cl');
    } else {
      WriteDeliverInv(c, cl, sv, cl', sv');
    }
  }

  /** What the network may change at a waiting client, and what is left to show then. */
  lemma ClientRequestInv(c: Config, cl: Host, sv: Host, cl': Host)
    requires c.Valid() && Inv(c, State(cl, sv)) && Waits(Client, cl.pc)
    requires cl' == cl.(sq := cl'.sq, cq := cl'.cq, buf := cl'.buf, qp := cl'.qp) && Sized(cl')
    requires QpOk(Client, cl') && Queues(Client, cl') && ClientData(c, cl', sv)
    ensures Inv(c, State(cl', sv))
  {
  }

  lemma ClientCompletes(c: Config, cl: Host, sv: Host, cl': Host)
    requires c.Valid() && Sized(cl) && OnPath(Client, cl.pc) && Complete(cl) == Some(cl')
    requires QpOk(Client, cl) && Queues(Client, cl) && ClientData(c, cl, sv)
    ensures Waits(Client, cl.pc) && Sized(cl') && cl' == cl.(sq := [], cq := [Success], buf := cl'.buf)
    ensures QpOk(Client, cl') && Queues(Client, cl') && ClientData(c, cl', sv)
  {
  }

  lemma ClientCompleteInv(c: Config, cl: Host, sv: Host, cl': Host)
    requires c.Valid() && Inv(c, State(cl, sv)) && Complete(cl) == Some(cl')
    ensures Inv(c, State(cl', sv))
  {
    ClientCompletes(c, cl, sv, cl');
    ClientRequestInv(c, cl, sv, cl');
  }

  lemma ClientGivesUp(c: Config, cl: Host, sv: Host, cl': Host)
    requires c.Valid() && Sized(cl) && OnPath(Client, cl.pc) && GiveUp(cl) == Some(cl')
    requires QpOk(Client, cl) && Queues(Client, cl) && ClientData(c, cl, sv)
    ensures Waits(Client, cl.pc) && Sized(cl') && cl' == cl.(sq := [], cq := [Error], qp := Broken)
    ensures QpOk(Client, cl') && Queues(Client, cl') && ClientData(c, cl', sv)
  {
  }

  lemma ClientGiveUpInv(c: Config, cl: Host, sv: Host, cl': Host)
    requires c.Valid() && Inv(c, State(cl, sv)) && GiveUp(cl) == Some(cl')
    ensures Inv(c, State(cl', sv))
  {
    ClientGivesUp(c, cl, sv, cl');
    ClientRequestInv(c, cl, sv, cl');
  }

  // ---------- the network, the server's message ----------

  lemma ServerFetchInv(c: Config, cl: Host, sv: Host, sv': Host)
    requires c.Valid() && Inv(c, State(cl, sv)) && Fetch(sv) == Some(sv')
    ensures Inv(c, State(cl, sv'))
  {
    assert sv.pc == Poll1 && sv.buf == c.MsgBuf();
    assert sv' == sv.(sq := [Request(Send, InFlight, c.MsgBuf())]);
    assert ServerQueues(cl, sv');
    assert ServerData(c, cl, sv') && ClientData(c, cl, sv') && Printed(c, cl, sv');
  }

  lemma MessageDelivered(c: Config, cl: Host, sv: Host, cl': Host, sv': Host)
    requires c.Valid() && ClientQueues(cl) && ServerQueues(cl, sv) && Deliver(c, Server, sv, cl) == Some((sv', cl'))
    requires OnPath(Server, sv.pc) && sv.sq[0].data == c.MsgBuf()
    ensures sv.pc == Poll1 && 3 < Idx(cl.pc) <= 9
    ensures sv' == sv.(sq := [Request(Send, Delivered, c.MsgBuf())])
    ensures cl' == cl.(buf := c.MsgBuf(), rq := 0, cq := [Success])
    ensures ClientQueues(cl') && ServerQueues(cl', sv')
  {
  }

  lemma EarlyPoint(pc: Pc)
    requires Idx(pc) <= 9
    ensures pc != Poll2 && pc != Poll3 && pc != Print2 && pc != Copy2 && pc != PostWrite
  {
  }

  lemma MessageData(c: Config, cl: Host, sv: Host, cl': Host, sv': Host)
    requires c.Valid() && ServerData(c, cl, sv) && Printed(c, cl, sv) && 3 < Idx(cl.pc) <= 9
    requires sv' == sv.(sq := [Request(Send, Delivered, c.MsgBuf())])
    requires cl' == cl.(buf := c.MsgBuf(), rq := 0, cq := [Success])
    ensures ServerData(c, cl', sv') && Printed(c, cl', sv')
    ensures ClientData(c, cl', sv')
  {
    EarlyPoint(cl.pc);
    assert GotMessage(cl');
  }

  lemma ServerDeliverInv(c: Config, cl: Host, sv: Host, cl': Host, sv': Host)
    requires c.Valid() && Inv(c, State(cl, sv)) && Deliver(c, Server, sv, cl) == Some((sv', cl'))
    ensures Inv(c, State(cl', sv'))
  {
    MessageDelivered(c, cl, sv, cl', sv');
    MessageData(c, cl, sv, cl', sv');
  }

  lemma ServerCompleteInv(c: Config, cl: Host, sv: Host, sv': Host)
    requires c.Valid() && Inv(c, State(cl, sv)) && Complete(sv) == Some(sv')
    ensures Inv(c, State(cl, sv'))
  {
    assert sv.pc == Poll1 && sv.cq == [] && sv.sq[0].op == Send && GotMessage(cl);
    assert sv' == sv.(sq := [], cq := [Success]);
    assert ServerQueues(cl, sv');
    assert ServerData(c, cl, sv') && ClientData(c, cl, sv') && Printed(c, cl, sv');
  }

  lemma ServerGiveUpInv(c: Config, cl: Host, sv: Host, sv': Host)
    requires c.Valid() && Inv(c, State(cl, sv)) && GiveUp(sv) == Some(sv')
    ensures Inv(c, State(cl, sv'))
  {
    assert sv.pc == Poll1 && sv.cq == [];
    assert sv' == sv.(sq := [], cq := [Error], qp := Broken);
    assert ServerQueues(cl, sv');
    assert ServerData(c, cl, sv') && ClientData(c, cl, sv') && Printed(c, cl, sv');
  }

  // ---------- every step ----------

  lemma ClientNetworkInv(c: Config, s: State, a: Action, s': State)
    requires c.Valid() && Inv(c, s) && Next(c, s, a) == Some(s') && a.r == Client
    requires a.NetFetch? || a.NetDeliver? || a.NetComplete? || a.NetGiveUp?
    ensures Inv(c, s')
  {
    match a
    case NetFetch(_) => ClientFetchInv(c, s.client, s.server, s'.client);
    case NetDeliver(_) => ClientDeliverInv(c, s.client, s.server, s'.client, s'.server);
    case NetComplete(_) => ClientCompleteInv(c, s.client, s.server, s'.client);
    case NetGiveUp(_) => ClientGiveUpInv(c, s.client, s.server, s'.client);
  }

  lemma ServerNetworkInv(c: Config, s: State, a: Action, s': State)
    requires c.Valid() && Inv(c, s) && Next(c, s, a) == Some(s') && a.r == Server
    requires a.NetFetch? || a.NetDeliver? || a.NetComplete? || a.NetGiveUp?
    ensures Inv(c, s')
  {
    match a
    case NetFetch(_) => ServerFetchInv(c, s.client, s.server, s'.server);
    case NetDeliver(_) => ServerDeliverInv(c, s.client, s.server, s'.client, s'.server);
    case NetComplete(_) => ServerCompleteInv(c, s.client, s.server, s'.server);
    case NetGiveUp(_) => ServerGiveUpInv(c, s.client, s.server, s'.server);
  }

  lemma StopInv(c: Config, s: State, a: Action, s': State)
    requires c.Valid() && Inv(c, s) && Next(c, s, a) == Some(s')
    requires a.Fail? || a.FailSend? || a.Destroy?
    ensures Inv(c, s')
  {
    StepStops(c, s, a, s');
    if a.r == Client {
      ClientStopInv(c, s.client, s.server, s'.client);
    } else {
      ServerStopInv(c, s.client, s.server, s'.server);
    }
  }

  lemma StepInv(c: Config, s: State, a: Action, s': State)
    requires c.Valid() && Inv(c, s) && Next(c, s, a) == Some(s')
    ensures Inv(c, s')
  {
    if a.Act? {
      ActInv(c, s, a.r, s');
    } else if a.Read? {
      ReadInv(c, s, a.r, a.n, s');
    } else if a.ZeroRead? {
      assert s' == s;
    } else if a.Fail? || a.FailSend? || a.Destroy? {
      StopInv(c, s, a, s');
    } else if a.r == Client {
      ClientNetworkInv(c, s, a, s');
    } else {
      ServerNetworkInv(c, s, a, s');
    }
  }
}

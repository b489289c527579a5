/**
  The RDMA exchange of c/ibtest/ibv-rc.c as a transition system: a client and a server, each
  with its program counter, message buffer, queue pair, queues and TCP stream, and a network
  that carries out posted requests in steps of its own.  All interleavings are allowed, and
  any call may fail.
 */
module ExchangeMachine {
  import opened Wrappers
  import opened Bytes
  import opened ExchangeWire

  // ---------- C strings ----------

  const BUF_SIZE: nat := 21   // MSG_SIZE

  /** A string as long as MSG, RDMAMSGR and RDMAMSGW are. */
  predicate IsText(t: string) {
    |t| + 1 == BUF_SIZE && '\0' !in t
  }

  function Zeros(n: nat): (r: string)
    ensures |r| == n && forall i :: 0 <= i < n ==> r[i] == '\0'
  {
    if n == 0 then [] else Zeros(n - 1) + ['\0']
  }

  function Strcpy(buf: string, t: string): (r: string)
    requires |t| + 1 <= |buf|
    ensures |r| == |buf|
  {
    t + ['\0'] + buf[|t| + 1..]
  }

  lemma StrcpyFills(buf: string, t: string)
    requires |buf| == BUF_SIZE && IsText(t)
    ensures Strcpy(buf, t) == t + ['\0']
  {
  }

  /** What `%s` prints. */
  function CString(buf: string): string {
    if buf == [] || buf[0] == '\0' then [] else [buf[0]] + CString(buf[1..])
  }

  lemma {:induction false} CStringOfText(t: string)
    requires '\0' !in t
    ensures CString(t + ['\0']) == t
  {
    if t != [] {
      CStringOfText(t[1..]);
      assert (t + ['\0'])[1..] == t[1..] + ['\0'];
    }
  }

  // ---------- the parties ----------

  datatype Role = Client | Server {
    function Peer(): Role {
      if this == Client then Server else Client
    }
  }

  /** The three texts, what each side tells the other about itself, and whether `read` may
      bring only a part of the connection record. */
  datatype Config = Config(msg: string, forRead: string, forWrite: string,
                           client: ConData, server: ConData, shortReads: bool) {
    predicate Valid() {
      IsText(msg) && IsText(forRead) && IsText(forWrite) && client.Valid() && server.Valid()
    }

    function Props(r: Role): ConData {
      if r == Client then client else server
    }

    /** All that `r` ever writes to the socket. */
    function Script(r: Role): (s: seq<byte>)
      requires Valid()
      ensures |s| == RECORD_SIZE + 3
    {
      Encode(Props(r)) + [QBYTE, RBYTE, WBYTE]
    }

    /** The buffer with each of the texts in it. */
    function MsgBuf(): string { msg + ['\0'] }

    function ReadBuf(): string { forRead + ['\0'] }

    function WriteBuf(): string { forWrite + ['\0'] }
  }

  /** The states of a queue pair that the program drives it through, and the error state. */
  datatype QpState = Reset | Init | Rtr | Rts | Broken

  datatype Op = Send | RdmaRead | RdmaWrite

  /** How far a posted request has got: its payload is on its way, or the other side has acted on it. */
  datatype Progress = Posted | InFlight | Delivered

  datatype Request = Request(op: Op, progress: Progress, data: string)

  datatype Completion = Success | Error

  /** The points of the program, in order; each side leaves out the other's. */
  datatype Pc =
    ConSend | ConRecv | ToInit | PostRecv | ToRtr | ToRts | QSend | QRecv
    | PostSend | Poll1 | Print1 | Copy1 | RSend | RRecv
    | PostRead | Poll2 | Print2 | Copy2 | PostWrite | Poll3 | WSend | WRecv | Print3 | Done

  function Idx(pc: Pc): nat {
    match pc
    case ConSend => 0 case ConRecv => 1 case ToInit => 2 case PostRecv => 3 case ToRtr => 4
    case ToRts => 5 case QSend => 6 case QRecv => 7 case PostSend => 8 case Poll1 => 9
    case Print1 => 10 case Copy1 => 11 case RSend => 12 case RRecv => 13 case PostRead => 14
    case Poll2 => 15 case Print2 => 16 case Copy2 => 17 case PostWrite => 18 case Poll3 => 19
    case WSend => 20 case WRecv => 21 case Print3 => 22 case Done => 23
  }

  function NextPc(r: Role, pc: Pc): Pc {
    match pc
    case ConSend => ConRecv
    case ConRecv => ToInit
    case ToInit => if r == Client then PostRecv else ToRtr
    case PostRecv => ToRtr
    case ToRtr => ToRts
    case ToRts => QSend
    case QSend => QRecv
    case QRecv => if r == Client then Poll1 else PostSend
    case PostSend => Poll1
    case Poll1 => if r == Client then Print1 else Copy1
    case Print1 => RSend
    case Copy1 => RSend
    case RSend => RRecv
    case RRecv => if r == Client then PostRead else WSend
    case PostRead => Poll2
    case Poll2 => Print2
    case Print2 => Copy2
    case Copy2 => PostWrite
    case PostWrite => Poll3
    case Poll3 => WSend
    case WSend => WRecv
    case WRecv => if r == Client then Done else Print3
    case Print3 => Done
    case Done => Done
  }

  /** `Failed`: a call has reported -1; `Overrun`: a read has stored past `tmp_con_data`, and
      nothing is known of the program any more; `Gone`: the resources are destroyed. */
  datatype Status = Running | Failed | Overrun | Gone

  /** One host.  `got` is the part of the record received so far, `sent` all that was written
      to the socket, `nread` how much of the peer's stream was read, `out` what was printed. */
  datatype Host = Host(pc: Pc, status: Status, got: seq<byte>, sent: seq<byte>, nread: nat,
                       remote: Option<ConData>, dest: Option<ConData>, qp: QpState,
                       buf: string, sq: seq<Request>, rq: nat, cq: seq<Completion>, out: seq<string>)

  datatype State = State(client: Host, server: Host) {
    function Of(r: Role): Host {
      if r == Client then client else server
    }

    function With(r: Role, h: Host): State {
      if r == Client then this.(client := h) else this.(server := h)
    }
  }

  /** After resources_create: the server's buffer holds the message, the client's is zero. */
  function Initial(c: Config): (s: State)
    requires c.Valid()
    ensures Sized(s.client) && Sized(s.server)
  {
    State(Host(ConSend, Running, [], [], 0, None, None, Reset, Zeros(BUF_SIZE), [], 0, [], []),
          Host(ConSend, Running, [], [], 0, None, None, Reset, Strcpy(Zeros(BUF_SIZE), c.msg), [], 0, [], []))
  }

  // ---------- the program ----------

  /** ibv_post_send: a send queue of one entry, on a queue pair that is ready to send. */
  function Post(h: Host, op: Op, next: Pc): Option<Host> {
    if h.sq == [] && h.qp == Rts && h.remote.Some? then Some(h.(sq := [Request(op, Posted, "")], pc := next)) else None
  }

  /** poll_completion: waits for an entry; a bad status is a failure. */
  function Poll(h: Host, next: Pc): Option<Host> {
    if h.cq == [] then None
    else if h.cq[0] == Success then Some(h.(cq := h.cq[1..], pc := next))
    else Some(h.(cq := h.cq[1..], status := Failed))
  }

  /** One byte from the peer's stream. */
  function ReadOne(h: Host, peer: seq<byte>, next: Pc): Option<Host> {
    if h.nread < |peer| then Some(h.(nread := h.nread + 1, pc := next)) else None
  }

  predicate WritesByte(pc: Pc) {
    pc == QSend || pc == RSend || pc == WSend
  }

  predicate ReadsByte(pc: Pc) {
    pc == QRecv || pc == RRecv || pc == WRecv
  }

  predicate Polls(pc: Pc) {
    pc == Poll1 || pc == Poll2 || pc == Poll3
  }

  predicate Posts(pc: Pc) {
    pc == PostSend || pc == PostRead || pc == PostWrite
  }

  predicate Prints(pc: Pc) {
    pc == Print1 || pc == Print2 || pc == Print3
  }

  /** What a step of host `r` changes, field by field. */
  predicate Moved(c: Config, r: Role, h: Host, peer: seq<byte>, h': Host)
    requires c.Valid() && Sized(h)
  {
    && Sized(h') && h.status == Running && h.pc != Done && h.pc != ConRecv && h'.got == h.got && h'.remote == h.remote
    && (if Polls(h.pc) && h.cq != [] && h.cq[0] == Error then h'.pc == h.pc && h'.status == Failed
        else h'.pc == NextPc(r, h.pc) && h'.status == Running)
    && (if Polls(h.pc) then h.cq != [] && h'.cq == h.cq[1..] else h'.cq == h.cq)
    && h'.sent == (if h.pc == ConSend then h.sent + Encode(c.Props(r)) else if h.pc == QSend then h.sent + [QBYTE]
                   else if h.pc == RSend then h.sent + [RBYTE] else if h.pc == WSend then h.sent + [WBYTE] else h.sent)
    && (if ReadsByte(h.pc) then h'.nread == h.nread + 1 <= |peer| else h'.nread == h.nread)
    && h'.dest == (if h.pc == ToRtr then h.remote else h.dest)
    && h'.qp == (if h.pc == ToInit then Init else if h.pc == ToRtr then Rtr else if h.pc == ToRts then Rts else h.qp)
    && h'.rq == (if h.pc == PostRecv then 1 else h.rq)
    && h'.buf == (if h.pc == Copy1 then Strcpy(h.buf, c.forRead) else if h.pc == Copy2 then Strcpy(h.buf, c.forWrite) else h.buf)
    && h'.out == (if Prints(h.pc) then h.out + [CString(h.buf)] else h.out)
    && (if Posts(h.pc)
        then h.sq == [] && h'.sq == [Request(if h.pc == PostSend then Send else if h.pc == PostRead then RdmaRead else RdmaWrite, Posted, "")]
        else h'.sq == h.sq)
  }

  /** In connect_qp, up to where the receive request is posted. */
  function ConnectStep(c: Config, r: Role, h: Host, peer: seq<byte>): (result: Option<Host>)
    requires c.Valid() && Sized(h) && h.status == Running && Idx(h.pc) <= 3
    ensures result.Some? ==> Moved(c, r, h, peer, result.value)
  {
    var next := NextPc(r, h.pc);
    match h.pc
    case ConSend => Some(h.(sent := h.sent + Encode(c.Props(r)), pc := next))
    case ConRecv => None
    case ToInit => if h.qp == Reset then Some(h.(qp := Init, pc := next)) else None
    case PostRecv => if h.rq == 0 && h.qp != Reset then Some(h.(rq := 1, pc := next)) else None
  }

  /** The rest of connect_qp. */
  function ReadyStep(c: Config, r: Role, h: Host, peer: seq<byte>): (result: Option<Host>)
    requires c.Valid() && Sized(h) && h.status == Running && 3 < Idx(h.pc) <= 7
    ensures result.Some? ==> Moved(c, r, h, peer, result.value)
  {
    var next := NextPc(r, h.pc);
    match h.pc
    case ToRtr => if h.qp == Init then Some(h.(qp := Rtr, dest := h.remote, pc := next)) else None
    case ToRts => if h.qp == Rtr then Some(h.(qp := Rts, pc := next)) else None
    case QSend => Some(h.(sent := h.sent + [QBYTE], pc := next))
    case QRecv => ReadOne(h, peer, next)
  }

  /** In `main`, up to the sync after the message. */
  function MessageStep(c: Config, r: Role, h: Host, peer: seq<byte>): (result: Option<Host>)
    requires c.Valid() && Sized(h) && h.status == Running && 7 < Idx(h.pc) <= 13
    ensures result.Some? ==> Moved(c, r, h, peer, result.value)
  {
    var next := NextPc(r, h.pc);
    match h.pc
    case PostSend => Post(h, Send, next)
    case Poll1 => Poll(h, next)
    case Print1 => Some(h.(out := h.out + [CString(h.buf)], pc := next))
    case Copy1 => Some(h.(buf := Strcpy(h.buf, c.forRead), pc := next))
    case RSend => Some(h.(sent := h.sent + [RBYTE], pc := next))
    case RRecv => ReadOne(h, peer, next)
  }

  /** In `main`, the client's RDMA operations. */
  function RdmaStep(c: Config, r: Role, h: Host, peer: seq<byte>): (result: Option<Host>)
    requires c.Valid() && Sized(h) && h.status == Running && 13 < Idx(h.pc) <= 19
    ensures result.Some? ==> Moved(c, r, h, peer, result.value)
  {
    var next := NextPc(r, h.pc);
    match h.pc
    case PostRead => Post(h, RdmaRead, next)
    case Poll2 => Poll(h, next)
    case Print2 => Some(h.(out := h.out + [CString(h.buf)], pc := next))
    case Copy2 => Some(h.(buf := Strcpy(h.buf, c.forWrite), pc := next))
    case PostWrite => Post(h, RdmaWrite, next)
    case Poll3 => Poll(h, next)
  }

  /** In `main`, the last sync and what follows. */
  function LastStep(c: Config, r: Role, h: Host, peer: seq<byte>): (result: Option<Host>)
    requires c.Valid() && Sized(h) && h.status == Running && 19 < Idx(h.pc)
    ensures result.Some? ==> Moved(c, r, h, peer, result.value)
  {
    var next := NextPc(r, h.pc);
    match h.pc
    case WSend => Some(h.(sent := h.sent + [WBYTE], pc := next))
    case WRecv => ReadOne(h, peer, next)
    case Print3 => Some(h.(out := h.out + [CString(h.buf)], pc := next))
    case Done => None
  }

  /** The next call or assignment of host `r`, if it can complete; `peer` is what the peer wrote. */
  function HostStep(c: Config, r: Role, h: Host, peer: seq<byte>): (result: Option<Host>)
    requires c.Valid() && Sized(h)
    ensures result.Some? ==> Moved(c, r, h, peer, result.value)
  {
    if h.status != Running then None
    else if Idx(h.pc) <= 3 then ConnectStep(c, r, h, peer)
    else if Idx(h.pc) <= 7 then ReadyStep(c, r, h, peer)
    else if Idx(h.pc) <= 13 then MessageStep(c, r, h, peer)
    else if Idx(h.pc) <= 19 then RdmaStep(c, r, h, peer)
    else LastStep(c, r, h, peer)
  }

  /** A read of `n` bytes of the record; every read asks for the whole record again.  Where
      reads are not short, one that brings less brings all that is left before the end of
      the stream. */
  function ReadRecord(c: Config, h: Host, peer: seq<byte>, closed: bool, n: nat): Option<Host> {
    if h.status != Running || h.pc != ConRecv || n == 0 || h.nread + n > |peer| || n > RECORD_SIZE then None
    else if !c.shortReads && n < RECORD_SIZE && !(closed && h.nread + n == |peer|) then None
    else
      var got := h.got + peer[h.nread..h.nread + n];
      if |got| > RECORD_SIZE then Some(h.(status := Overrun))
      else if |got| < RECORD_SIZE then Some(h.(got := got, nread := h.nread + n))
      else Some(h.(got := got, nread := h.nread + n, remote := Some(Decode(got)), pc := ToInit))
  }

  predicate AtRead(pc: Pc) {
    pc == ConRecv || ReadsByte(pc)
  }

  /** The next read of `h` returns 0: `p` has closed the connection, and nothing is left of
      what it wrote.  The program reads again. */
  predicate Starved(h: Host, p: Host) {
    h.status == Running && AtRead(h.pc) && p.status == Gone && h.nread == |p.sent|
  }

  predicate Calls(pc: Pc) {
    pc != Print1 && pc != Copy1 && pc != Print2 && pc != Copy2 && pc != Print3 && pc != Done
  }

  // ---------- the network ----------

  /** The payload of a SEND or an RDMA WRITE, or the request of an RDMA READ, leaves the host. */
  function Fetch(h: Host): (result: Option<Host>)
    ensures result.Some? && Sized(h) ==> Sized(result.value)
  {
    if h.status != Gone && h.qp == Rts && h.sq != [] && h.sq[0].progress == Posted
    then Some(h.(sq := [Request(h.sq[0].op, InFlight, if h.sq[0].op == RdmaRead then "" else h.buf)]))
    else None
  }

  /** The request of `h` can be carried out by `p`: `p` is there and ready to receive, is the
      queue pair `h` was connected to, and for RDMA is the memory `h` was told of. */
  predicate Reaches(c: Config, r: Role, h: Host, p: Host) {
    && p.status != Gone && (p.qp == Rtr || p.qp == Rts)
    && h.dest.Some? && h.dest.value.qpNum == c.Props(r.Peer()).qpNum && h.dest.value.lid == c.Props(r.Peer()).lid
    && (h.sq != [] && h.sq[0].op != Send ==>
         h.remote.Some? && h.remote.value.addr == c.Props(r.Peer()).addr && h.remote.value.rkey == c.Props(r.Peer()).rkey)
  }

  /** The other side acts on the request: (requester, responder) afterwards. */
  function Deliver(c: Config, r: Role, h: Host, p: Host): (result: Option<(Host, Host)>)
    ensures result.Some? && Sized(h) && Sized(p) ==> Sized(result.value.0) && Sized(result.value.1)
  {
    if h.sq == [] || h.sq[0].progress != InFlight || !Reaches(c, r, h, p) then None
    else
      match h.sq[0].op
      case Send =>
        if p.rq == 0 then None
        else Some((h.(sq := [h.sq[0].(progress := Delivered)]), p.(buf := h.sq[0].data, rq := p.rq - 1, cq := p.cq + [Success])))
      case RdmaWrite =>
        Some((h.(sq := [h.sq[0].(progress := Delivered)]), p.(buf := h.sq[0].data)))
      case RdmaRead =>
        Some((h.(sq := [Request(RdmaRead, Delivered, p.buf)]), p))
  }

  /** The answer arrives: the request is complete. */
  function Complete(h: Host): (result: Option<Host>)
    ensures result.Some? && Sized(h) ==> Sized(result.value)
  {
    if h.status != Gone && h.sq != [] && h.sq[0].progress == Delivered
    then Some(h.(sq := [], cq := h.cq + [Success], buf := if h.sq[0].op == RdmaRead then h.sq[0].data else h.buf))
    else None
  }

  /** The request is given up, at any stage. */
  function GiveUp(h: Host): Option<Host> {
    if h.status != Gone && h.sq != [] then Some(h.(sq := [], cq := h.cq + [Error], qp := Broken)) else None
  }

  // ---------- steps of the whole system ----------

  datatype Action =
    | Act(r: Role)                 // the next call succeeds
    | Read(r: Role, n: nat)        // a read of the record brings n bytes
    | ZeroRead(r: Role)            // a read returns 0
    | Fail(r: Role)                // the next call reports -1 and has done nothing
    | FailSend(r: Role, n: nat)    // writing the record fails after n bytes
    | Destroy(r: Role)             // resources_destroy
    | NetFetch(r: Role)
    | NetDeliver(r: Role)
    | NetComplete(r: Role)
    | NetGiveUp(r: Role)

  function Lift(s: State, r: Role, h: Option<Host>): Option<State> {
    match h
    case None => None
    case Some(h') => Some(s.With(r, h'))
  }

  /** Buffers, and payloads on their way, are of the registered size. */
  predicate Sized(h: Host) {
    && |h.buf| == BUF_SIZE
    && (h.sq != [] && (h.sq[0].progress == Delivered || (h.sq[0].progress == InFlight && h.sq[0].op != RdmaRead))
        ==> |h.sq[0].data| == BUF_SIZE)
  }

  function Next(c: Config, s: State, a: Action): (r: Option<State>)
    requires c.Valid() && Sized(s.client) && Sized(s.server)
    ensures r.Some? ==> Sized(r.value.client) && Sized(r.value.server)
  {
    var h, p := s.Of(a.r), s.Of(a.r.Peer());
    match a
    case Act(r) => Lift(s, r, HostStep(c, r, h, p.sent))
    case Read(r, n) => Lift(s, r, ReadRecord(c, h, p.sent, p.status == Gone, n))
    case ZeroRead(r) => if Starved(h, p) then Some(s) else None
    case Fail(r) => if h.status == Running && Calls(h.pc) then Some(s.With(r, h.(status := Failed))) else None
    case FailSend(r, n) =>
      if h.status == Running && h.pc == ConSend && n < RECORD_SIZE
      then Some(s.With(r, h.(status := Failed, sent := h.sent + Encode(c.Props(r))[..n])))
      else None
    case Destroy(r) =>
      if h.status == Failed || (h.status == Running && h.pc == Done) then Some(s.With(r, h.(status := Gone))) else None
    case NetFetch(r) => Lift(s, r, Fetch(h))
    case NetDeliver(r) =>
      (match Deliver(c, r, h, p)
       case None => None
       case Some((h', p')) => Some(s.With(r, h').With(r.Peer(), p')))
    case NetComplete(r) => Lift(s, r, Complete(h))
    case NetGiveUp(r) => Lift(s, r, GiveUp(h))
  }

  /** A schedule, from `s`; None if one of its actions cannot be taken. */
  function Execute(c: Config, s: State, schedule: seq<Action>): (r: Option<State>)
    requires c.Valid() && Sized(s.client) && Sized(s.server)
    ensures r.Some? ==> Sized(r.value.client) && Sized(r.value.server)
    decreases |schedule|
  {
    if schedule == [] then Some(s)
    else
      match Next(c, s, schedule[0])
      case None => None
      case Some(s') => Execute(c, s', schedule[1..])
  }

  ghost predicate LeadsTo(c: Config, s: State, t: State)
    requires c.Valid() && Sized(s.client) && Sized(s.server)
  {
    exists schedule :: Execute(c, s, schedule) == Some(t)
  }

  ghost predicate Reachable(c: Config, s: State)
    requires c.Valid()
  {
    LeadsTo(c, Initial(c), s)
  }

  /** The first step of a run. */
  lemma Head(c: Config, s: State, schedule: seq<Action>) returns (mid: State)
    requires c.Valid() && Sized(s.client) && Sized(s.server) && schedule != [] && Execute(c, s, schedule).Some?
    ensures Next(c, s, schedule[0]) == Some(mid) && Execute(c, s, schedule) == Execute(c, mid, schedule[1..])
  {
    mid := Next(c, s, schedule[0]).value;
  }

  lemma FirstStep(c: Config, s: State, a: Action, mid: State, rest: seq<Action>)
    requires c.Valid() && Sized(s.client) && Sized(s.server) && Next(c, s, a) == Some(mid)
    ensures Execute(c, s, [a] + rest) == Execute(c, mid, rest)
  {
    assert ([a] + rest)[1..] == rest;
  }

  lemma HeadOfConcat<T>(first: seq<T>, rest: seq<T>)
    requires first != []
    ensures first + rest == [first[0]] + (first[1..] + rest)
  {
  }

  lemma {:induction false} ExecuteConcat(c: Config, s: State, first: seq<Action>, t: State, rest: seq<Action>, u: State)
    requires c.Valid() && Sized(s.client) && Sized(s.server) && Execute(c, s, first) == Some(t)
    requires Sized(t.client) && Sized(t.server) && Execute(c, t, rest) == Some(u)
    ensures Execute(c, s, first + rest) == Some(u)
    decreases |first|
  {
    if first == [] {
      assert first + rest == rest && s == t;
    } else {
      var mid := Head(c, s, first);
      ExecuteConcat(c, mid, first[1..], t, rest, u);
      var more := first[1..] + rest;
      FirstStep(c, s, first[0], mid, more);
      HeadOfConcat(first, rest);
    }
  }

  lemma LeadsToSelf(c: Config, s: State)
    requires c.Valid() && Sized(s.client) && Sized(s.server)
    ensures LeadsTo(c, s, s)
  {
    assert Execute(c, s, []) == Some(s);
  }

  lemma LeadsToStep(c: Config, s: State, t: State, a: Action, u: State)
    requires c.Valid() && Sized(s.client) && Sized(s.server) && Sized(t.client) && Sized(t.server)
    requires LeadsTo(c, s, t) && Next(c, t, a) == Some(u)
    ensures LeadsTo(c, s, u)
  {
    var schedule :| Execute(c, s, schedule) == Some(t);
    FirstStep(c, t, a, u, []);
    ExecuteConcat(c, s, schedule, t, [a] + [], u);
  }

  // ---------- schedules with actions that cannot be taken ----------

  /** The actions of a schedule that can be taken when their turn comes, if the others are left out. */
  function Enabled(c: Config, s: State, schedule: seq<Action>): seq<Action>
    requires c.Valid() && Sized(s.client) && Sized(s.server)
    decreases |schedule|
  {
    if schedule == [] then []
    else
      match Next(c, s, schedule[0])
      case None => Enabled(c, s, schedule[1..])
      case Some(s') => [schedule[0]] + Enabled(c, s', schedule[1..])
  }

  /** The state after them. */
  function After(c: Config, s: State, schedule: seq<Action>): State
    requires c.Valid() && Sized(s.client) && Sized(s.server)
    decreases |schedule|
  {
    if schedule == [] then s
    else
      match Next(c, s, schedule[0])
      case None => After(c, s, schedule[1..])
      case Some(s') => After(c, s', schedule[1..])
  }

  lemma {:induction false} EnabledExecutes(c: Config, s: State, schedule: seq<Action>)
    requires c.Valid() && Sized(s.client) && Sized(s.server)
    ensures Execute(c, s, Enabled(c, s, schedule)) == Some(After(c, s, schedule))
    decreases |schedule|
  {
    if schedule != [] {
      var next := Next(c, s, schedule[0]);
      if next.Some? {
        EnabledExecutes(c, next.value, schedule[1..]);
        FirstStep(c, s, schedule[0], next.value, Enabled(c, next.value, schedule[1..]));
      } else {
        EnabledExecutes(c, s, schedule[1..]);
      }
    }
  }

  /** Where nothing has to be left out, nothing is. */
  lemma {:induction false} AllEnabled(c: Config, s: State, schedule: seq<Action>)
    requires c.Valid() && Sized(s.client) && Sized(s.server) && Execute(c, s, schedule).Some?
    ensures Enabled(c, s, schedule) == schedule && Execute(c, s, schedule) == Some(After(c, s, schedule))
    decreases |schedule|
  {
    if schedule != [] {
      var mid := Head(c, s, schedule);
      AllEnabled(c, mid, schedule[1..]);
    }
  }
}

/**
  What the two hosts of c/ibtest/ibv-rc.c send each other over TCP: the 34-byte connection
  record in network byte order, and one-byte syncs; and the read loop that takes them apart.
 */
module ExchangeWire {
  import opened Bytes

  const QBYTE: byte := 81
  const RBYTE: byte := 82
  const WBYTE: byte := 87

  // ---------- network byte order ----------

  function Power256(w: nat): nat {
    if w == 0 then 1 else 256 * Power256(w - 1)
  }

  /** The low `w` bytes of `n`, highest first. */
  function BigEndian(n: nat, w: nat): (r: seq<byte>)
    ensures |r| == w
  {
    if w == 0 then [] else BigEndian(n / 256, w - 1) + [n % 256]
  }

  function FromBigEndian(b: seq<byte>): nat {
    if b == [] then 0 else 256 * FromBigEndian(b[..|b| - 1]) + b[|b| - 1]
  }

  lemma {:induction false} BigEndianRoundTrip(n: nat, w: nat)
    requires n < Power256(w)
    ensures FromBigEndian(BigEndian(n, w)) == n
  {
    if w > 0 {
      var b := BigEndian(n / 256, w - 1);
      assert (b + [n % 256])[..w - 1] == b;
      BigEndianRoundTrip(n / 256, w - 1);
    }
  }

  lemma {:induction false} HighestFirst(x: byte, rest: seq<byte>)
    ensures FromBigEndian([x] + rest) == x * Power256(|rest|) + FromBigEndian(rest)
  {
    if rest == [] {
      assert [x] + rest == [x];
      assert FromBigEndian([x]) == x;
    } else {
      var k := |rest| - 1;
      HighestFirst(x, rest[..k]);
      assert ([x] + rest)[..k + 1] == [x] + rest[..k];
      Shift(x, Power256(k), FromBigEndian(rest[..k]));
    }
  }

  lemma Shift(x: nat, p: nat, low: nat)
    ensures 256 * (x * p + low) == x * (256 * p) + 256 * low
  {
  }

  // ---------- the connection record ----------

  /** `struct cm_con_data_t`. */
  datatype ConData = ConData(addr: nat, rkey: nat, qpNum: nat, lid: nat, gid: seq<byte>) {
    predicate Valid() {
      && addr < Power256(8) && rkey < Power256(4) && qpNum < Power256(4) && lid < Power256(2)
      && |gid| == 16
    }
  }

  const RECORD_SIZE: nat := 34

  function Encode(d: ConData): (r: seq<byte>)
    requires d.Valid()
    ensures |r| == RECORD_SIZE
  {
    BigEndian(d.addr, 8) + BigEndian(d.rkey, 4) + BigEndian(d.qpNum, 4) + BigEndian(d.lid, 2) + d.gid
  }

  function Decode(b: seq<byte>): ConData
    requires |b| == RECORD_SIZE
  {
    ConData(FromBigEndian(b[..8]), FromBigEndian(b[8..12]), FromBigEndian(b[12..16]), FromBigEndian(b[16..18]), b[18..])
  }

  lemma Fields(a: seq<byte>, b: seq<byte>, c: seq<byte>, d: seq<byte>, e: seq<byte>)
    requires |a| == 8 && |b| == 4 && |c| == 4 && |d| == 2
    ensures var r := a + b + c + d + e;
            r[..8] == a && r[8..12] == b && r[12..16] == c && r[16..18] == d && r[18..] == e
  {
    var r := a + b + c + d + e;
    assert r[..8] == a;
    assert r[8..12] == b;
    assert r[12..16] == c;
    assert r[16..18] == d;
  }

  /** Where the fields are, without padding: the buffer's address, its key, the queue pair's
      number, the port's identifier and the global one. */
  lemma RecordLayout(d: ConData)
    requires d.Valid()
    ensures var b := Encode(d);
            && (forall i :: 0 <= i < 8 ==> b[i] == BigEndian(d.addr, 8)[i])
            && (forall i :: 0 <= i < 4 ==> b[8 + i] == BigEndian(d.rkey, 4)[i] && b[12 + i] == BigEndian(d.qpNum, 4)[i])
            && (forall i :: 0 <= i < 2 ==> b[16 + i] == BigEndian(d.lid, 2)[i])
            && (forall i :: 0 <= i < 16 ==> b[18 + i] == d.gid[i])
  {
  }

  /** What one side encodes the other decodes. */
  lemma RecordRoundTrip(d: ConData)
    requires d.Valid()
    ensures Decode(Encode(d)) == d
  {
    BigEndianRoundTrip(d.addr, 8);
    BigEndianRoundTrip(d.rkey, 4);
    BigEndianRoundTrip(d.qpNum, 4);
    BigEndianRoundTrip(d.lid, 2);
    Fields(BigEndian(d.addr, 8), BigEndian(d.rkey, 4), BigEndian(d.qpNum, 4), BigEndian(d.lid, 2), d.gid);
  }

  // ---------- the read loop ----------

  /** How `sock_sync_data` ends.  `Overran`: a read stored past the end of the caller's
      variable; `Waiting`: the reads so far have not brought enough. */
  datatype Outcome = Received | ReadFailed | Overran | Waiting

  /** A socket: bytes that have arrived, and what the next calls of `read` will return. */
  class Socket {
    var arrived: seq<byte>
    var results: seq<int>

    constructor (bytes: seq<byte>, script: seq<int>)
      ensures arrived == bytes && results == script
    {
      arrived, results := bytes, script;
    }

    /** `read` with room for `count` bytes: its next result is -1, or between 0 and what is
        both asked for and there. */
    method Read(count: nat) returns (tmp: int, data: seq<byte>)
      requires results != []
      modifies this
      ensures results == old(results)[1..]
      ensures tmp == Granted(old(results)[0], count, |old(arrived)|)
      ensures if tmp < 0 then data == [] && arrived == old(arrived)
              else data == old(arrived)[..tmp] && arrived == old(arrived)[tmp..]
    {
      tmp := Granted(results[0], count, |arrived|);
      results := results[1..];
      data := [];
      if tmp >= 0 {
        data, arrived := arrived[..tmp], arrived[tmp..];
      }
    }
  }

  function Granted(result: int, count: nat, there: nat): (tmp: int)
    ensures -1 <= tmp <= count && tmp <= there
  {
    var most := if count < there then count else there;
    if result < 0 then -1 else if result < most then result else most
  }

  /** The reads a loop that already has `got` bytes of `size` makes. */
  function Loop(got: nat, size: nat, there: nat, results: seq<int>): (Outcome, nat, nat)
    decreases |results|
  {
    if got == size then (Received, got, there)
    else if got > size then (Overran, got, there)
    else if results == [] then (Waiting, got, there)
    else
      var tmp := Granted(results[0], size, there);
      if tmp < 0 then (ReadFailed, got, there)
      else Loop(got + tmp, size, there - tmp, results[1..])
  }

  /**
    The reading half of `sock_sync_data`: every read asks for all `size` bytes again, however
    many are still missing.
   */
  method ReadAll(sock: Socket, size: nat) returns (outcome: Outcome, remote: seq<byte>)
    modifies sock
    ensures var (o, n, rest) := Loop(0, size, |old(sock.arrived)|, old(sock.results));
            outcome == o && |remote| == n && |sock.arrived| == rest
    ensures old(sock.arrived) == remote + sock.arrived
  {
    remote := [];
    ghost var all, script := sock.arrived, sock.results;
    while |remote| < size && sock.results != []
      invariant all == remote + sock.arrived
      invariant Loop(|remote|, size, |sock.arrived|, sock.results) == Loop(0, size, |all|, script)
      decreases |sock.results|
    {
      var tmp, data := sock.Read(size);
      if tmp < 0 {
        return ReadFailed, remote;
      }
      remote := remote + data;
    }
    outcome := if |remote| == size then Received else if |remote| > size then Overran else Waiting;
  }

  lemma {:induction false} OverrunNeedsBytes(got: nat, size: nat, there: nat, results: seq<int>)
    requires got <= size && got + there <= size
    ensures Loop(got, size, there, results).0 != Overran
    decreases |results|
  {
    if got < size && results != [] {
      var tmp := Granted(results[0], size, there);
      if tmp >= 0 {
        OverrunNeedsBytes(got + tmp, size, there - tmp, results[1..]);
      }
    }
  }

  lemma {:induction false} SingleBytesSafe(there: nat, results: seq<int>)
    ensures Loop(0, 1, there, results).0 != Overran
    decreases |results|
  {
    if results != [] && Granted(results[0], 1, there) == 0 {
      SingleBytesSafe(there, results[1..]);
    }
  }

  /** The loop is safe however the reads are cut iff no byte beyond the message has arrived, or
      the message is a single byte: one read of one byte, then one of `size` bytes, overruns. */
  lemma LoopSafeIff(size: nat, there: nat)
    ensures (forall results :: Loop(0, size, there, results).0 != Overran) <==> there <= size || size <= 1
  {
    if there <= size || size <= 1 {
      forall results ensures Loop(0, size, there, results).0 != Overran {
        if there <= size {
          OverrunNeedsBytes(0, size, there, results);
        } else if size == 1 {
          SingleBytesSafe(there, results);
        }
      }
    } else {
      var results := [1, size];
      assert results[1..] == [size];
      assert Loop(1, size, there - 1, [size]).0 == Overran;
      assert Loop(0, size, there, results).0 == Overran;
    }
  }

  /** The loop is also safe if the first read brings the whole message. */
  lemma FullReadSafe(size: nat, there: nat, results: seq<int>)
    requires results != [] && Granted(results[0], size, there) == size
    ensures Loop(0, size, there, results) == (Received, size, there - size)
  {
    if size > 0 {
      assert Loop(size, size, there - size, results[1..]) == (Received, size, there - size);
    }
  }
}

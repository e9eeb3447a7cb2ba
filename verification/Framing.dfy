/** Packets over a byte stream: a header of type and payload length, then the payload.
  *
  * What arrives at a socket is a list of arrivals, cut up in any way; a receive call
  * takes at most what it asks for.  RecvAll says that packets of 1 to 1016 bytes come out
  * whole and in order whatever the cuts, IntactIff that no other packet does.
  */
module Framing {
  import opened Options

  type Byte = n: int | 0 <= n < 256

  /** What a select and a recv on the socket can see. */
  datatype Arrival = Chunk(bytes: seq<Byte>) | Timeout | Broken

  datatype Packet = Packet(kind: nat, data: seq<Byte>)

  const HEAD: nat := 8
  const MAX_PACKET: nat := 1024
  const WORD: nat := 0x1_0000_0000

  // ------------------------------------------------------------------- the header

  function Low(n: nat): Byte {
    n % 256
  }

  /** struct.pack "=L" on a little-endian machine. */
  function Le32(n: nat): (r: seq<Byte>)
    requires n < WORD
    ensures |r| == 4
  {
    [Low(n), Low(n / 256), Low(n / 0x1_0000), Low(n / 0x100_0000)]
  }

  function Word(b: seq<Byte>): nat
    requires |b| == 4
  {
    b[0] as int + 256 * (b[1] as int) + 0x1_0000 * (b[2] as int) + 0x100_0000 * (b[3] as int)
  }

  lemma {:induction false} WordBack(n: nat)
    requires n < WORD
    ensures Word(Le32(n)) == n
  {
    var a, b, c := n / 256, n / 0x1_0000, n / 0x100_0000;
    assert n == 256 * a + n % 256;
    assert b == a / 256 && a == 256 * b + a % 256;
    assert c == b / 256 && b == 256 * c + b % 256;
  }

  predicate Sendable(p: Packet) {
    p.kind < WORD && |p.data| < WORD
  }

  function Frame(p: Packet): (r: seq<Byte>)
    requires Sendable(p)
    ensures |r| == HEAD + |p.data|
  {
    Le32(p.kind) + Le32(|p.data|) + p.data
  }

  lemma {:induction false} FrameHeader(p: Packet)
    requires Sendable(p)
    ensures Word(Frame(p)[4..8]) == |p.data| && Word(Frame(p)[..4]) == p.kind
    ensures Frame(p)[8..] == p.data
  {
    WordBack(p.kind);
    WordBack(|p.data|);
    assert Frame(p)[..4] == Le32(p.kind);
    assert Frame(p)[4..8] == Le32(|p.data|);
  }

  /** On the wire: type and length as four bytes each, the lowest first, then the payload. */
  lemma {:induction false} FrameBytes(p: Packet)
    requires p.kind < 0x1_0000_0000 && |p.data| < 0x1_0000_0000
    ensures Sendable(p)
    ensures var f := Frame(p); var n := |p.data|;
      && f[0] == p.kind % 256 && f[1] == p.kind / 256 % 256
      && f[2] == p.kind / 65536 % 256 && f[3] == p.kind / 16777216
      && f[4] == n % 256 && f[5] == n / 256 % 256 && f[6] == n / 65536 % 256 && f[7] == n / 16777216
      && f[8..] == p.data
  {
    FrameHeader(p);
  }

  // --------------------------------------------------------------------- receiving

  datatype Got = Got(bytes: seq<Byte>, rest: seq<Arrival>) | Late(rest: seq<Arrival>) | Failed(rest: seq<Arrival>)

  /** One select and recv of at most n bytes.  No arrivals left is silence. */
  function Take(arr: seq<Arrival>, n: nat): (g: Got)
    requires n > 0
    ensures g.Got? ==> |g.bytes| <= n
  {
    if arr == [] then Late([])
    else
      match arr[0]
      case Timeout => Late(arr[1..])
      case Broken => Failed(arr[1..])
      case Chunk(bytes) =>
        if |bytes| <= n then Got(bytes, arr[1..])
        else Got(bytes[..n], [Chunk(bytes[n..])] + arr[1..])
  }

  datatype Read = Full(data: seq<Byte>, rest: seq<Arrival>) | Shut(data: seq<Byte>, rest: seq<Arrival>)
    | TimedOut(data: seq<Byte>, rest: seq<Arrival>) | Error(rest: seq<Arrival>)

  /** Receiving until there are target bytes. */
  function ReadTo(arr: seq<Arrival>, data: seq<Byte>, target: nat): (r: Read)
    requires |data| < target
    ensures r.Full? ==> |r.data| == target
    decreases target - |data|
  {
    match Take(arr, target - |data|)
    case Late(rest) => TimedOut(data, rest)
    case Failed(rest) => Error(rest)
    case Got(bytes, rest) =>
      if |bytes| == 0 then Shut(data, rest)
      else if |data + bytes| == target then Full(data + bytes, rest)
      else ReadTo(rest, data + bytes, target)
  }

  /** What sockrecv returns, and what is left on the socket. */
  datatype Received = Received(code: int, data: Option<seq<Byte>>, rest: seq<Arrival>)

  /** sockrecv(sock, length) */
  function SockRecv(arr: seq<Arrival>, length: nat): Received {
    match ReadTo(arr, [], HEAD)
    case TimedOut(_, rest) => Received(-1, None, rest)
    case Shut(_, rest) => Received(0, None, rest)
    case Error(rest) => Received(0, None, rest)
    case Full(head, rest) =>
      var datalen := Word(head[4..8]);
      if datalen == 0 || length <= HEAD then Received(0, Some(head), rest)
      else
        var pktlen := if HEAD + datalen > length then length else HEAD + datalen;
        match ReadTo(rest, head, pktlen)
        case TimedOut(data, rest2) => Received(-1, Some(data), rest2)
        case Shut(data, rest2) => Received(0, Some(data), rest2)
        case Error(rest2) => Received(0, None, rest2)
        case Full(data, rest2) => Received(pktlen, Some(data), rest2)
  }

  class Socket {
    var arrivals: seq<Arrival>

    constructor (arr: seq<Arrival>)
      ensures arrivals == arr
    {
      arrivals := arr;
    }

    method Recv(n: nat) returns (g: Got)
      requires n > 0
      modifies this
      ensures g == Take(old(arrivals), n) && arrivals == g.rest
    {
      if arrivals == [] {
        return Late([]);
      }
      match arrivals[0] {
        case Timeout => g := Late(arrivals[1..]);
        case Broken => g := Failed(arrivals[1..]);
        case Chunk(bytes) =>
          if |bytes| <= n {
            g := Got(bytes, arrivals[1..]);
          } else {
            g := Got(bytes[..n], [Chunk(bytes[n..])] + arrivals[1..]);
          }
      }
      arrivals := g.rest;
    }
  }

  /** sockrecv, with its two receive loops. */
  method Receive(sock: Socket, length: nat) returns (code: int, result: Option<seq<Byte>>)
    modifies sock
    ensures Received(code, result, sock.arrivals) == SockRecv(old(sock.arrivals), length)
  {
    hide Word, Take;
    var data: seq<Byte> := [];
    while true
      invariant |data| < HEAD
      invariant ReadTo(sock.arrivals, data, HEAD) == ReadTo(old(sock.arrivals), [], HEAD)
      decreases HEAD - |data|
    {
      var d := sock.Recv(HEAD - |data|);
      match d
      case Late(_) => return -1, None;
      case Failed(_) => return 0, None;
      case Got(bytes, _) =>
        if |bytes| == 0 {
          return 0, None;
        }
        data := data + bytes;
        if |data| == HEAD {
          break;
        }
    }
    var datalen := Word(data[4..8]);
    if datalen == 0 || length <= HEAD {
      return 0, Some(data);
    }
    var pktlen := HEAD + datalen;
    if pktlen > length {
      pktlen := length;
    }
    ghost var head, arr := data, sock.arrivals;
    while true
      invariant |data| < pktlen
      invariant ReadTo(sock.arrivals, data, pktlen) == ReadTo(arr, head, pktlen)
      decreases pktlen - |data|
    {
      var d := sock.Recv(pktlen - |data|);
      match d
      case Late(_) => return -1, Some(data);
      case Failed(_) => return 0, None;
      case Got(bytes, _) =>
        if |bytes| == 0 {
          return 0, Some(data);
        }
        data := data + bytes;
        if |data| == pktlen {
          break;
        }
    }
    return pktlen, Some(data);
  }

  /** socksend: what reaches the other end, if the socket takes it whole. */
  method Send(wire: seq<Byte>, p: Packet) returns (wire': seq<Byte>)
    requires Sendable(p)
    ensures wire' == wire + Frame(p)
  {
    wire' := wire + (Le32(p.kind) + Le32(|p.data|) + p.data);
  }

  // ------------------------------------------------------ the stream behind the cuts

  /** Nothing but data, and no empty chunk. */
  predicate Steady(arr: seq<Arrival>) {
    forall k: nat | k < |arr| :: arr[k].Chunk? && |arr[k].bytes| > 0
  }

  function Flow(arr: seq<Arrival>): seq<Byte> {
    if arr == [] then []
    else (if arr[0].Chunk? then arr[0].bytes else []) + Flow(arr[1..])
  }

  lemma {:induction false} TakeKeepsFlow(arr: seq<Arrival>, n: nat)
    requires Steady(arr) && arr != [] && n > 0
    ensures var g := Take(arr, n);
      g.Got? && 0 < |g.bytes| && Steady(g.rest) && Flow(arr) == g.bytes + Flow(g.rest)
  {
    var bytes := arr[0].bytes;
    if |bytes| > n {
      var rest := [Chunk(bytes[n..])] + arr[1..];
      assert rest[1..] == arr[1..];
      assert bytes == bytes[..n] + bytes[n..];
    }
  }

  /** Reading to a target takes just that much of the stream. */
  lemma {:induction false} ReadTakes(arr: seq<Arrival>, data: seq<Byte>, target: nat)
    requires Steady(arr) && |data| < target <= |data| + |Flow(arr)|
    ensures var r := ReadTo(arr, data, target); var n := target - |data|;
      && r.Full? && Steady(r.rest)
      && r.data == data + Flow(arr)[..n] && Flow(r.rest) == Flow(arr)[n..]
    decreases target - |data|
  {
    hide Take;
    var n := target - |data|;
    TakeKeepsFlow(arr, n);
    var g := Take(arr, n);
    var f := Flow(arr);
    assert f == g.bytes + Flow(g.rest);
    if |g.bytes| == n {
      assert f[..n] == g.bytes && f[n..] == Flow(g.rest);
    } else {
      ReadTakes(g.rest, data + g.bytes, target);
      var m := n - |g.bytes|;
      assert f[..n] == g.bytes + Flow(g.rest)[..m];
      assert f[n..] == Flow(g.rest)[m..];
    }
  }

  /** What a read that comes too short runs into. */
  function Stop(x: Arrival, data: seq<Byte>, rest: seq<Arrival>): Read {
    match x
    case Timeout => TimedOut(data, rest)
    case Broken => Error(rest)
    case Chunk(_) => Shut(data, rest)
  }

  lemma {:induction false} ReadStops(arr: seq<Arrival>, x: Arrival, rest: seq<Arrival>, data: seq<Byte>, target: nat)
    requires Steady(arr) && |data| + |Flow(arr)| < target && (x.Chunk? ==> x.bytes == [])
    ensures ReadTo(arr + [x] + rest, data, target) == Stop(x, data + Flow(arr), rest)
    decreases |arr|
  {
    var all := arr + [x] + rest;
    if arr == [] {
      assert all[0] == x && all[1..] == rest;
    } else {
      assert all[0] == arr[0] && all[1..] == arr[1..] + [x] + rest;
      ReadStops(arr[1..], x, rest, data + arr[0].bytes, target);
    }
  }

  lemma {:induction false} ReadSilence(arr: seq<Arrival>, data: seq<Byte>, target: nat)
    requires Steady(arr) && |data| + |Flow(arr)| < target
    ensures ReadTo(arr, data, target) == TimedOut(data + Flow(arr), [])
    decreases |arr|
  {
    if arr != [] {
      ReadSilence(arr[1..], data + arr[0].bytes, target);
    }
  }

  /** Interrupted before the header is there: -1 after a silence, 0 if the other end closed
    * or the socket failed, and nothing of what came is given out. */
  lemma {:induction false} InterruptedInHeader(arr: seq<Arrival>, x: Arrival, rest: seq<Arrival>, length: nat)
    requires Steady(arr) && |Flow(arr)| < 8 && (x.Chunk? ==> x.bytes == [])
    ensures SockRecv(arr + [x] + rest, length) == Received(if x.Timeout? then -1 else 0, None, rest)
    ensures SockRecv(arr, length) == Received(-1, None, [])
  {
    ReadStops(arr, x, rest, [], HEAD);
    ReadSilence(arr, [], HEAD);
  }

  /** Interrupted between header and end: what came is given out with -1 after a silence
    * and with 0 if the other end closed; a failing socket gives out nothing. */
  lemma {:induction false} InterruptedInPayload(head: seq<Arrival>, arr: seq<Arrival>, x: Arrival, rest: seq<Arrival>,
          length: nat)
    requires Steady(head) && Steady(arr) && |Flow(head)| == 8 && (x.Chunk? ==> x.bytes == [])
    requires var h := Flow(head);
      var n := h[4] as int + 256 * (h[5] as int) + 65536 * (h[6] as int) + 16777216 * (h[7] as int);
      n > 0 && length > 8 && 8 + |Flow(arr)| < (if 8 + n > length then length else 8 + n)
    ensures var all := Flow(head) + Flow(arr);
      && SockRecv(head + (arr + [x] + rest), length)
         == Received(if x.Timeout? then -1 else 0, if x.Broken? then None else Some(all), rest)
      && SockRecv(head + arr, length) == Received(-1, Some(all), [])
  {
    hide ReadTo, Flow, SockRecv;
    var h := Flow(head);
    var n := Word(h[4..8]);
    var pktlen := if HEAD + n > length then length else HEAD + n;
    BehindHeader(head, arr + [x] + rest, length);
    BehindHeader(head, arr, length);
    ReadStops(arr, x, rest, h, pktlen);
    ReadSilence(arr, h, pktlen);
  }

  /** The call, once the header has come. */
  lemma {:induction false} BehindHeader(head: seq<Arrival>, arr: seq<Arrival>, length: nat)
    requires Steady(head) && |Flow(head)| == HEAD && length > HEAD && Word(Flow(head)[4..8]) > 0
    ensures var n := Word(Flow(head)[4..8]); var pktlen := if HEAD + n > length then length else HEAD + n;
      SockRecv(head + arr, length) == match ReadTo(arr, Flow(head), pktlen)
        case TimedOut(data, rest) => Received(-1, Some(data), rest)
        case Shut(data, rest) => Received(0, Some(data), rest)
        case Error(rest) => Received(0, None, rest)
        case Full(data, rest) => Received(pktlen, Some(data), rest)
  {
    assert head != [];
    hide ReadTo, Flow, Word;
    assert [] + Flow(head) == Flow(head);
    ReadExact(head, arr, []);
  }

  lemma {:induction false} ReadExact(head: seq<Arrival>, rest: seq<Arrival>, data: seq<Byte>)
    requires Steady(head) && head != [] && |data| + |Flow(head)| == HEAD
    ensures ReadTo(head + rest, data, HEAD) == Full(data + Flow(head), rest)
    decreases |head|
  {
    var all := head + rest;
    assert all[0] == head[0] && all[1..] == head[1..] + rest;
    if |head| == 1 {
      assert head[1..] == [] && Flow(head[1..]) == [];
      assert all[1..] == rest;
    } else {
      assert head[1] == head[1..][0];
      assert |Flow(head[1..])| > 0;
      ReadExact(head[1..], rest, data + head[0].bytes);
    }
  }

  /** What the next call returns of a packet at the head of the stream. */
  lemma {:induction false} RecvNext(arr: seq<Arrival>, p: Packet, tail: seq<Byte>)
    requires Steady(arr) && Sendable(p) && Flow(arr) == Frame(p) + tail
    ensures var r := SockRecv(arr, MAX_PACKET);
      var n := if HEAD + |p.data| > MAX_PACKET then MAX_PACKET else HEAD + |p.data|;
      && Steady(r.rest)
      && r.code == (if p.data == [] then 0 else n)
      && r.data == Some(Frame(p)[..n])
      && Flow(r.rest) == Frame(p)[n..] + tail
  {
    hide ReadTo, Flow, Word, Frame;
    var f := Frame(p);
    FrameHeader(p);
    ReadTakes(arr, [], HEAD);
    var head := ReadTo(arr, [], HEAD);
    assert head.data == f[..HEAD];
    assert head.data[4..8] == f[4..8];
    assert Flow(head.rest) == f[HEAD..] + tail;
    if p.data != [] {
      var n := if HEAD + |p.data| > MAX_PACKET then MAX_PACKET else HEAD + |p.data|;
      ReadTakes(head.rest, head.data, n);
      var m := n - HEAD;
      assert Flow(head.rest)[..m] == f[HEAD..n];
      assert f[..HEAD] + f[HEAD..n] == f[..n];
      assert Flow(head.rest)[m..] == f[n..] + tail;
    }
  }

  /** A packet comes out whole, and reported as such, exactly when its payload has 1 to
    * 1016 bytes. */
  lemma {:induction false} IntactIff(arr: seq<Arrival>, p: Packet, tail: seq<Byte>)
    requires Steady(arr) && Sendable(p) && Flow(arr) == Frame(p) + tail
    ensures var r := SockRecv(arr, MAX_PACKET);
      (r.code == |Frame(p)| && r.data == Some(Frame(p))) <==> 1 <= |p.data| <= MAX_PACKET - HEAD
  {
    hide SockRecv, Flow;
    RecvNext(arr, p, tail);
    assert |p.data| <= MAX_PACKET - HEAD ==> Frame(p)[..|Frame(p)|] == Frame(p);
  }

  function FrameAll(ps: seq<Packet>): seq<Byte>
    requires forall p | p in ps :: Sendable(p)
  {
    if ps == [] then [] else
    assert ps[0] in ps && forall p | p in ps[1..] :: p in ps;
    Frame(ps[0]) + FrameAll(ps[1..])
  }

  /** n calls of sockrecv in a row. */
  function RecvMany(arr: seq<Arrival>, n: nat): seq<Received>
    decreases n
  {
    if n == 0 then []
    else [SockRecv(arr, MAX_PACKET)] + RecvMany(SockRecv(arr, MAX_PACKET).rest, n - 1)
  }

  /** What is left to arrive after n calls. */
  function RestAfter(arr: seq<Arrival>, n: nat): seq<Arrival>
    decreases n
  {
    if n == 0 then arr else RestAfter(SockRecv(arr, MAX_PACKET).rest, n - 1)
  }

  predicate Intact(r: Received, p: Packet)
    requires Sendable(p)
  {
    r.code == |Frame(p)| && r.data == Some(Frame(p))
  }

  lemma {:induction false} CallsStep(arr: seq<Arrival>, n: nat)
    ensures RecvMany(arr, n) == if n == 0 then []
      else [SockRecv(arr, MAX_PACKET)] + RecvMany(SockRecv(arr, MAX_PACKET).rest, n - 1)
    ensures RestAfter(arr, n) == if n == 0 then arr else RestAfter(SockRecv(arr, MAX_PACKET).rest, n - 1)
  {
    hide SockRecv;
  }

  lemma {:induction false} FramesStep(ps: seq<Packet>)
    requires forall p | p in ps :: Sendable(p)
    ensures ps == [] ==> FrameAll(ps) == []
    ensures ps != [] ==> (forall p | p in ps[1..] :: Sendable(p)) && FrameAll(ps) == Frame(ps[0]) + FrameAll(ps[1..])
  {
    hide Frame;
    if ps != [] {
      assert forall p | p in ps[1..] :: p in ps;
    }
  }

  /** Any sequence of such packets, any cuts: they come out whole and in order,
    * and no more than them is taken off the stream. */
  lemma {:induction false} RecvAll(arr: seq<Arrival>, ps: seq<Packet>, tail: seq<Byte>)
    requires forall p | p in ps :: Sendable(p) && 1 <= |p.data| <= MAX_PACKET - HEAD
    requires Steady(arr) && Flow(arr) == FrameAll(ps) + tail
    ensures |RecvMany(arr, |ps|)| == |ps|
    ensures forall k: nat | k < |ps| :: Sendable(ps[k]) && Intact(RecvMany(arr, |ps|)[k], ps[k])
    ensures Flow(RestAfter(arr, |ps|)) == tail
    decreases |ps|
  {
    hide SockRecv, Flow, Frame, Steady, FrameAll, RecvMany, RestAfter;
    CallsStep(arr, |ps|);
    FramesStep(ps);
    if ps != [] {
      assert ps[0] in ps && forall p | p in ps[1..] :: p in ps;
      var rest := FrameAll(ps[1..]) + tail;
      assert Flow(arr) == Frame(ps[0]) + rest;
      RecvNext(arr, ps[0], rest);
      var f := Frame(ps[0]);
      assert f[..|f|] == f && f[|f|..] + rest == rest;
      RecvAll(SockRecv(arr, MAX_PACKET).rest, ps[1..], tail);
    }
  }

  /** What a packet too long leaves on the socket is the rest of it, not the next one. */
  lemma {:induction false} LongPacketSplits(arr: seq<Arrival>, p: Packet, tail: seq<Byte>)
    requires Steady(arr) && Sendable(p) && Flow(arr) == Frame(p) + tail && |p.data| > MAX_PACKET - HEAD
    ensures Flow(SockRecv(arr, MAX_PACKET).rest) == p.data[MAX_PACKET - HEAD..] + tail
  {
    hide SockRecv, Flow;
    RecvNext(arr, p, tail);
    FrameHeader(p);
    assert Frame(p)[MAX_PACKET..] == Frame(p)[8..][MAX_PACKET - HEAD..];
  }
}

/** What each operation of BetterUDPSocket does, as functions of the
    connection's fields and the datagrams still waiting to be read.

    The socket is abstract: the datagrams that `recvfrom` would return are a
    sequence consumed from the front, and `sendto` appends to a log. Where the
    source would block forever in `recvfrom`, the result is `Blocked`; where it
    raises, the result is `Raised` with the reason. */
module Connection {
  import opened Wire

  /** A peer address, the `(ip, port)` tuple of the source. */
  datatype Addr = Addr(host: string, port: int)

  /** A datagram as it arrives: its sender and its bytes. */
  datatype Datagram = Datagram(from: Addr, bytes: seq<Byte>)

  /** A datagram handed to `sendto`: where it goes and the header fields and
      payload it was built from. Its bytes are `Encode` of it. */
  datatype Outgoing = Outgoing(to: Addr, packet: Packet)

  /** The exceptions an operation can end with. */
  datatype Failure =
    | NotConnected      // RuntimeError("Not connected") from send
    | ShortPacket       // struct.unpack of fewer than 9 bytes
    | FieldOutOfRange   // struct.pack of a sequence or ack number of 2^32 or more
    | NoPeerAddress     // sendto with `self.addr` still None

  datatype Result<T> = Ok(value: T) | Err(error: Failure)

  /** How an operation ends: it returns, it waits forever for a datagram that
      never comes, or it raises. */
  datatype Outcome<T> = Returned(value: T) | Blocked | Raised(error: Failure)

  /** The fields `addr`, `seq`, `ack` and `connected`, and the datagrams not yet read. */
  datatype Endpoint = Endpoint(addr: Option<Addr>, seqNo: nat, ackNo: nat, connected: bool, inbox: seq<Datagram>)

  /** One operation's effect: the new endpoint, what it sent, how it ended. */
  datatype Step<T> = Step(after: Endpoint, out: seq<Outgoing>, outcome: Outcome<T>)

  /** The state `__init__` sets up, reading from `inbox`. */
  function Fresh(inbox: seq<Datagram>): Endpoint
  {
    Endpoint(None, 0, 0, false, inbox)
  }

  /** The initial sequence numbers `connect` and `listen` choose. */
  const CONNECT_ISN: nat := 100
  const LISTEN_ISN: nat := 42

  /** `recvfrom(1024)` keeps at most 1024 bytes of a datagram and drops the rest. */
  const RECV_BUFFER: nat := 1024

  function Received(d: Datagram): (r: seq<Byte>)
    ensures r <= d.bytes
    ensures |d.bytes| <= RECV_BUFFER ==> r == d.bytes
    ensures |d.bytes| > RECV_BUFFER ==> |r| == RECV_BUFFER
  {
    if |d.bytes| <= RECV_BUFFER then d.bytes else d.bytes[..RECV_BUFFER]
  }

  /** `sendto(_make_packet(flags, s, a, data), addr)`: the packet is built
      first, so a field out of range raises before the address is looked at. */
  function Emit(addr: Option<Addr>, flags: Byte, s: nat, a: nat, data: seq<Byte>): (r: Result<Outgoing>)
    ensures r.Ok? <==> s < WORD_LIMIT && a < WORD_LIMIT && addr.Some?
    ensures r.Ok? ==> r.value == Outgoing(addr.value, Packet(flags, s, a, data))
    ensures r.Err? && !(s < WORD_LIMIT && a < WORD_LIMIT) ==> r.error == FieldOutOfRange
    ensures r.Err? && s < WORD_LIMIT && a < WORD_LIMIT ==> r.error == NoPeerAddress
  {
    if !(s < WORD_LIMIT && a < WORD_LIMIT) then Err(FieldOutOfRange)
    else if addr.None? then Err(NoPeerAddress)
    else Ok(Outgoing(addr.value, Packet(flags, s, a, data)))
  }

  /** The bytes `_make_packet` builds for a datagram, if its fields fit. */
  function Encode(o: Outgoing): Option<seq<Byte>>
  {
    MakePacket(o.packet.flags, o.packet.seqNo, o.packet.ackNo, o.packet.data)
  }

  /** `Emit` fails on a field out of range exactly where `_make_packet` does,
      and what it sends parses back to the packet it was asked to send. */
  lemma EmitParses(addr: Option<Addr>, flags: Byte, s: nat, a: nat, data: seq<Byte>)
    ensures (Emit(addr, flags, s, a, data) == Err(FieldOutOfRange)) <==> MakePacket(flags, s, a, data).None?
    ensures Emit(addr, flags, s, a, data).Ok? ==>
      var o := Emit(addr, flags, s, a, data).value;
      Encode(o).Some? && ParsePacket(Encode(o).value) == Some(Packet(flags, s, a, data))
  {
    if s < WORD_LIMIT && a < WORD_LIMIT {
      ParseMakeRoundTrip(flags, s, a, data);
    }
  }

  // ---------------------------------------------------------------------------
  // The `while True: recvfrom` loops

  /** What a receive loop is waiting for; every other packet is read and dropped. */
  datatype Want =
    | AnyPacket                        // a single recvfrom (listen)
    | HandshakeReply(expectedAck: nat) // connect: SYN or ACK bit, and the ack it expects
    | FinOrAck                         // receive: FIN or ACK bit
    | AckOf(expectedAck: nat)          // close: ACK bit and the ack it expects
    | AnyFin                           // close, after a bare ACK: FIN bit

  /** The loop's test on a parsed packet; a flag test `flags & F` reads one
      bit, and `flags & (SYN | ACK)` either of two (`FlagTests`). */
  predicate Accepts(w: Want, p: Packet)
  {
    match w
    case AnyPacket => true
    case HandshakeReply(n) => SynOrAckSet(p.flags) && p.ackNo == n
    case FinOrAck => FinSet(p.flags) || AckSet(p.flags)
    case AckOf(n) => AckSet(p.flags) && p.ackNo == n
    case AnyFin => FinSet(p.flags)
  }

  /** The loop reads `d`, parses it and goes round again. */
  predicate Passes(w: Want, d: Datagram)
  {
    var p := ParsePacket(Received(d));
    p.Some? && !Accepts(w, p.value)
  }

  /** Where a receive loop stops: at the datagram it was waiting for, at one
      too short to parse (the loop raises), or at the end of the input. */
  datatype Wait = Found(at: nat, from: Addr, pkt: Packet) | Malformed(at: nat) | Exhausted
  {
    /** How many datagrams the loop passed over before stopping. */
    function Skipped(n: nat): nat
    {
      if Exhausted? then n else at
    }

    /** The same stop, seen from `k` datagrams earlier in the input. */
    function Plus(k: nat): Wait
    {
      match this
      case Found(at, from, pkt) => Found(at + k, from, pkt)
      case Malformed(at) => Malformed(at + k)
      case Exhausted => Exhausted
    }
  }

  /** `r` is the stop a loop waiting for `w` makes on `inbox`. */
  predicate Explains(inbox: seq<Datagram>, w: Want, r: Wait)
  {
    (r.Found? ==> r.at < |inbox| && r.from == inbox[r.at].from &&
                  ParsePacket(Received(inbox[r.at])) == Some(r.pkt) && Accepts(w, r.pkt)) &&
    (r.Malformed? ==> r.at < |inbox| && ParsePacket(Received(inbox[r.at])).None?) &&
    r.Skipped(|inbox|) <= |inbox| &&
    (forall j :: 0 <= j < r.Skipped(|inbox|) ==> Passes(w, inbox[j]))
  }

  /** The stop of a loop waiting for `w` on `inbox`. */
  function Scan(inbox: seq<Datagram>, w: Want): (r: Wait)
    ensures !r.Exhausted? ==> r.at < |inbox|
  {
    if inbox == [] then Exhausted
    else match ParsePacket(Received(inbox[0]))
      case None => Malformed(0)
      case Some(p) =>
        if Accepts(w, p) then Found(0, inbox[0].from, p)
        else Scan(inbox[1..], w).Plus(1)
  }

  /** A loop stops at the first datagram that is too short or wanted, and
      every datagram before that stop parses and is not wanted. */
  lemma {:induction false} ScanExplains(inbox: seq<Datagram>, w: Want)
    ensures Explains(inbox, w, Scan(inbox, w))
  {
    if inbox != [] && Passes(w, inbox[0]) {
      var tail := inbox[1..];
      ScanExplains(tail, w);
      var n := Scan(tail, w).Skipped(|tail|);
      assert Scan(inbox, w).Skipped(|inbox|) == n + 1;
      forall j | 1 <= j < n + 1
        ensures Passes(w, inbox[j])
      {
        assert inbox[j] == tail[j - 1];
      }
    }
  }

  /** What a loop does with the first datagram of a non-empty input; a
      datagram it passes over is read and forgotten. */
  lemma ScanFirst(inbox: seq<Datagram>, w: Want)
    requires inbox != []
    ensures ParsePacket(Received(inbox[0])).None? ==> Scan(inbox, w) == Malformed(0)
    ensures ParsePacket(Received(inbox[0])).Some? && Accepts(w, ParsePacket(Received(inbox[0])).value) ==>
      Scan(inbox, w) == Found(0, inbox[0].from, ParsePacket(Received(inbox[0])).value)
    ensures Passes(w, inbox[0]) ==>
      Scan(inbox, w) == Scan(inbox[1..], w).Plus(1) &&
      Remaining(inbox, Scan(inbox, w)) == Remaining(inbox[1..], Scan(inbox[1..], w))
  {
    if Passes(w, inbox[0]) {
      var r := Scan(inbox[1..], w);
      if !r.Exhausted? {
        assert inbox[1..][r.at + 1..] == inbox[r.at + 2..];
      }
    }
  }

  /** What a loop that has passed over the first `k` datagrams does with the next. */
  lemma ScanAt(inbox: seq<Datagram>, w: Want, k: nat)
    requires k < |inbox|
    requires forall j :: 0 <= j < k ==> Passes(w, inbox[j])
    ensures var p := ParsePacket(Received(inbox[k]));
      (p.None? ==> Scan(inbox, w) == Malformed(k) && Remaining(inbox, Scan(inbox, w)) == inbox[k + 1..]) &&
      (p.Some? && Accepts(w, p.value) ==>
         Scan(inbox, w) == Found(k, inbox[k].from, p.value) && Remaining(inbox, Scan(inbox, w)) == inbox[k + 1..]) &&
      (p.Some? && !Accepts(w, p.value) ==> Passes(w, inbox[k]))
  {
    ScanSkipping(inbox, w, k);
  }

  /** A loop whose every earlier datagram passes stops at the first wanted one. */
  lemma ScanFinds(inbox: seq<Datagram>, w: Want, k: nat, p: Packet)
    requires k < |inbox|
    requires forall j :: 0 <= j < k ==> Passes(w, inbox[j])
    requires ParsePacket(Received(inbox[k])) == Some(p) && Accepts(w, p)
    ensures Scan(inbox, w) == Found(k, inbox[k].from, p)
    ensures Remaining(inbox, Scan(inbox, w)) == inbox[k + 1..]
  {
    ScanSkipping(inbox, w, k);
  }

  /** A loop over datagrams that all pass reads them all and waits on. */
  lemma ScanRunsOut(inbox: seq<Datagram>, w: Want)
    requires forall j :: 0 <= j < |inbox| ==> Passes(w, inbox[j])
    ensures Scan(inbox, w) == Exhausted
    ensures Remaining(inbox, Scan(inbox, w)) == []
  {
    ScanSkipping(inbox, w, |inbox|);
  }

  /** The datagrams left unread after the loop stops. */
  function Remaining(inbox: seq<Datagram>, r: Wait): (rest: seq<Datagram>)
    ensures |rest| <= |inbox|
  {
    match r
    case Exhausted => []
    case _ => if r.at < |inbox| then inbox[r.at + 1..] else []
  }

  /** A loop that has passed over the first `k` datagrams stops where it
      would stop on the rest, counted from the start. */
  lemma {:induction false} ScanSkipping(inbox: seq<Datagram>, w: Want, k: nat)
    requires k <= |inbox|
    requires forall j :: 0 <= j < k ==> Passes(w, inbox[j])
    ensures Scan(inbox, w) == Scan(inbox[k..], w).Plus(k)
  {
    if k > 0 {
      ScanSkipping(inbox[1..], w, k - 1);
      assert inbox[1..][k - 1..] == inbox[k..];
    }
  }

  // ---------------------------------------------------------------------------
  // The operations, each split where the source moves from sending to waiting

  /** `s`, preceded on the wire by `o`. */
  function SentFirst<T>(o: Outgoing, s: Step<T>): Step<T>
  {
    s.(out := [o] + s.out)
  }

  /** `connect(ip, port)`: note the peer, start at sequence number 100, send SYN. */
  function ConnectSpec(e: Endpoint, to: Addr): Step<()>
  {
    var e1 := e.(addr := Some(to), seqNo := CONNECT_ISN);
    var syn := Emit(e1.addr, SYN, e1.seqNo, 0, []);
    SentFirst(syn.value, HandshakeSpec(e1))
  }

  /** The rest of `connect`: wait for the peer's answer, acknowledge it. */
  function HandshakeSpec(e: Endpoint): Step<()>
  {
    var w := Scan(e.inbox, HandshakeReply(e.seqNo + 1));
    var e1 := e.(inbox := Remaining(e.inbox, w));
    match w
    case Exhausted => Step(e1, [], Blocked)
    case Malformed(_) => Step(e1, [], Raised(ShortPacket))
    case Found(_, _, p) => AcknowledgeSpec(e1, p)
  }

  /** The end of `connect`: take the peer's sequence number, step past the
      SYN, acknowledge and count the connection as made. */
  function AcknowledgeSpec(e: Endpoint, p: Packet): Step<()>
  {
    var e1 := e.(ackNo := p.seqNo + 1, seqNo := e.seqNo + 1);
    match Emit(e1.addr, ACK, e1.seqNo, e1.ackNo, [])
    case Err(f) => Step(e1, [], Raised(f))
    case Ok(ack) => Step(e1.(connected := true), [ack], Returned(()))
  }

  /** `listen()`: read one datagram; on a SYN, adopt its sender and answer SYN|ACK. */
  function ListenSpec(e: Endpoint): Step<()>
  {
    var w := Scan(e.inbox, AnyPacket);
    var e1 := e.(inbox := Remaining(e.inbox, w));
    match w
    case Exhausted => Step(e1, [], Blocked)
    case Malformed(_) => Step(e1, [], Raised(ShortPacket))
    case Found(_, from, p) =>
      if !SynSet(p.flags) then Step(e1, [], Returned(()))
      else AnswerSpec(e1, from, p)
  }

  /** `listen` after a SYN: adopt its sender, take its sequence number, start
      at sequence number 42 and answer SYN|ACK. */
  function AnswerSpec(e: Endpoint, from: Addr, p: Packet): Step<()>
  {
    var e1 := e.(addr := Some(from), ackNo := p.seqNo + 1, seqNo := LISTEN_ISN);
    match Emit(e1.addr, Union(SYN, ACK), e1.seqNo, e1.ackNo, [])
    case Err(f) => Step(e1, [], Raised(f))
    case Ok(synack) => SentFirst(synack, ConfirmSpec(e1))
  }

  /** The rest of `listen`: read one more datagram; it connects only if it
      acknowledges the SYN|ACK. */
  function ConfirmSpec(e: Endpoint): Step<()>
  {
    var w := Scan(e.inbox, AnyPacket);
    var e1 := e.(inbox := Remaining(e.inbox, w));
    match w
    case Exhausted => Step(e1, [], Blocked)
    case Malformed(_) => Step(e1, [], Raised(ShortPacket))
    case Found(_, _, q) =>
      if AckSet(q.flags) && q.ackNo == e1.seqNo + 1 then Step(e1.(connected := true), [], Returned(()))
      else Step(e1, [], Returned(()))
  }

  /** `send(data)`. */
  function SendSpec(e: Endpoint, data: seq<Byte>): Step<()>
  {
    if !e.connected then Step(e, [], Raised(NotConnected))
    else match Emit(e.addr, ACK, e.seqNo, e.ackNo, data)
      case Err(f) => Step(e, [], Raised(f))
      case Ok(pkt) => Step(e.(seqNo := e.seqNo + |data|), [pkt], Returned(()))
  }

  /** `response_close()`: answer a FIN with FIN|ACK and drop the connection. */
  function ResponseCloseSpec(e: Endpoint): Step<()>
  {
    match Emit(e.addr, Union(FIN, ACK), e.seqNo, e.ackNo, [])
    case Err(f) => Step(e, [], Raised(f))
    case Ok(finack) => Step(e.(connected := false), [finack], Returned(()))
  }

  /** `receive()`: the payload of the next ACK-flagged packet, or None after a FIN. */
  function ReceiveSpec(e: Endpoint): Step<Option<seq<Byte>>>
  {
    var w := Scan(e.inbox, FinOrAck);
    var e1 := e.(inbox := Remaining(e.inbox, w));
    match w
    case Exhausted => Step(e1, [], Blocked)
    case Malformed(_) => Step(e1, [], Raised(ShortPacket))
    case Found(_, _, p) =>
      if FinSet(p.flags) then
        var s := ResponseCloseSpec(e1);
        Step(s.after, s.out, if s.outcome.Raised? then Raised(s.outcome.error) else Returned(None))
      else
        Step(e1.(ackNo := p.seqNo + |p.data|), [], Returned(Some(p.data)))
  }

  /** `close()`: send FIN, then wait for the peer. */
  function CloseSpec(e: Endpoint): Step<()>
  {
    match Emit(e.addr, FIN, e.seqNo, e.ackNo, [])
    case Err(f) => Step(e, [], Raised(f))
    case Ok(fin) => SentFirst(fin, CloseAckSpec(e))
  }

  /** The outer loop of `close`: wait for an ACK of the FIN; if it carries a
      FIN too the close can finish, otherwise wait for the FIN. */
  function CloseAckSpec(e: Endpoint): Step<()>
  {
    var w := Scan(e.inbox, AckOf(e.seqNo));
    var e1 := e.(inbox := Remaining(e.inbox, w));
    match w
    case Exhausted => Step(e1, [], Blocked)
    case Malformed(_) => Step(e1, [], Raised(ShortPacket))
    case Found(_, _, p) =>
      if FinSet(p.flags) then FinishCloseSpec(e1.(ackNo := p.seqNo + 1))
      else PeerFinSpec(e1)
  }

  /** The inner loop of `close`: wait for the peer's FIN. */
  function PeerFinSpec(e: Endpoint): Step<()>
  {
    var w := Scan(e.inbox, AnyFin);
    var e1 := e.(inbox := Remaining(e.inbox, w));
    match w
    case Exhausted => Step(e1, [], Blocked)
    case Malformed(_) => Step(e1, [], Raised(ShortPacket))
    case Found(_, _, q) => FinishCloseSpec(e1.(ackNo := q.seqNo + 1))
  }

  /** The end of `close` once the peer's FIN is in: the ACK of that FIN,
      the same ACK once more, and the connection is dropped. */
  function FinishCloseSpec(e: Endpoint): Step<()>
  {
    match Emit(e.addr, ACK, e.seqNo, e.ackNo, [])
    case Err(f) => Step(e, [], Raised(f))
    case Ok(ack) => Step(e.(connected := false), [ack, ack], Returned(()))
  }
}

/** Two BetterUDPSocket endpoints talking: what one end sends, read by the
    other. A datagram `sendto` hands over arrives unchanged and in order;
    loss, duplication and reordering are not considered here. */
module Exchange {
  import opened Wire
  import opened Connection
  import opened Properties

  /** The payload bytes of a packet carrying `n` that survive `recvfrom(1024)`. */
  function Kept(n: nat): (r: nat)
    ensures r <= n && r <= RECV_BUFFER - HEADER_SIZE
    ensures r == n <==> n <= RECV_BUFFER - HEADER_SIZE
  {
    if n <= RECV_BUFFER - HEADER_SIZE then n else RECV_BUFFER - HEADER_SIZE
  }

  /** The bytes of `o`, arriving from `from`. */
  function Carrying(from: Addr, o: Outgoing): Datagram
    requires Encode(o).Some?
  {
    Datagram(from, Encode(o).value)
  }

  /** The first `HEADER_SIZE + k` bytes of a frame are the frame of its first
      `k` payload bytes. */
  lemma FramePrefix(flags: Byte, s: nat, a: nat, data: seq<Byte>, k: nat)
    requires k <= |data|
    ensures |ToBigEndian(flags, 1) + ToBigEndian(s, 4) + ToBigEndian(a, 4)| == HEADER_SIZE
    ensures Frame(flags, s, a, data)[..HEADER_SIZE + k] == Frame(flags, s, a, data[..k])
  {
    var h := ToBigEndian(flags, 1) + ToBigEndian(s, 4) + ToBigEndian(a, 4);
    assert Frame(flags, s, a, data) == h + data;
    assert Frame(flags, s, a, data[..k]) == h + data[..k];
    assert (h + data)[..|h| + k] == h + data[..k];
  }

  /** A packet that was sent arrives with its header intact and its payload
      cut to what `recvfrom(1024)` keeps: the first 1015 bytes. */
  lemma Arrives(from: Addr, o: Outgoing)
    requires Encode(o).Some?
    ensures ParsePacket(Received(Carrying(from, o))) ==
      Some(o.packet.(data := o.packet.data[..Kept(|o.packet.data|)]))
  {
    var p := o.packet;
    var n := Kept(|p.data|);
    FramePrefix(p.flags, p.seqNo, p.ackNo, p.data, n);
    ParseMakeRoundTrip(p.flags, p.seqNo, p.ackNo, p.data[..n]);
    if n == |p.data| {
      assert p.data[..n] == p.data;
    }
    assert Received(Carrying(from, o)) == MakePacket(p.flags, p.seqNo, p.ackNo, p.data[..n]).value;
  }

  /** `send` on one end and `receive` on the other: the receiver gets the
      payload cut to 1015 bytes, and its ack becomes the sender's sequence
      number plus what it got. That ack equals the sender's new sequence
      number exactly when nothing was cut. */
  lemma Delivery(a: Endpoint, data: seq<Byte>, b: Endpoint, from: Addr, rest: seq<Datagram>)
    requires SendSpec(a, data).outcome.Returned?
    requires b.inbox == [Carrying(from, SendSpec(a, data).out[0])] + rest
    ensures var n := Kept(|data|);
      ReceiveSpec(b) == Step(b.(ackNo := a.seqNo + n, inbox := rest), [], Returned(Some(data[..n])))
    ensures ReceiveSpec(b).after.ackNo == SendSpec(a, data).after.seqNo <==> |data| <= RECV_BUFFER - HEADER_SIZE
  {
    SendEffect(a, data);
    var o := SendSpec(a, data).out[0];
    Arrives(from, o);
    var n := Kept(|data|);
    assert b.inbox[1..] == rest;
    ReceiveTakesData(b, 0, Packet(ACK, a.seqNo, a.ackNo, data[..n]));
  }

  /** The SYN `connect` sends, the SYN|ACK `listen` answers with, and the
      ACK that completes the handshake. */
  const HANDSHAKE_SYN := Packet(SYN, CONNECT_ISN, 0, [])
  const HANDSHAKE_SYNACK := Packet(Union(SYN, ACK), LISTEN_ISN, CONNECT_ISN + 1, [])
  const HANDSHAKE_ACK := Packet(ACK, CONNECT_ISN + 1, LISTEN_ISN + 1, [])

  /** `connect` whose first reply is the server's SYN|ACK sends SYN and ACK
      and connects, at 101 acknowledging 43. */
  lemma ClientHandshake(client: Endpoint, clientAddr: Addr, serverAddr: Addr)
    requires client.inbox == [Carrying(serverAddr, Outgoing(clientAddr, HANDSHAKE_SYNACK))]
    ensures ConnectSpec(client, serverAddr) ==
      Step(Endpoint(Some(serverAddr), CONNECT_ISN + 1, LISTEN_ISN + 1, true, []),
           [Outgoing(serverAddr, HANDSHAKE_SYN), Outgoing(serverAddr, HANDSHAKE_ACK)],
           Returned(()))
  {
    CombinedFlags();
    Arrives(serverAddr, Outgoing(clientAddr, HANDSHAKE_SYNACK));
    ConnectEstablishes(client, serverAddr, 0, HANDSHAKE_SYNACK);
  }

  /** `listen` that reads the client's SYN and then its ACK answers SYN|ACK
      and connects, at 42 acknowledging 101. */
  lemma ServerHandshake(server: Endpoint, clientAddr: Addr, serverAddr: Addr)
    requires server.inbox ==
      [Carrying(clientAddr, Outgoing(serverAddr, HANDSHAKE_SYN)),
       Carrying(clientAddr, Outgoing(serverAddr, HANDSHAKE_ACK))]
    ensures ListenSpec(server) ==
      Step(Endpoint(Some(clientAddr), LISTEN_ISN, CONNECT_ISN + 1, true, []),
           [Outgoing(clientAddr, HANDSHAKE_SYNACK)],
           Returned(()))
  {
    CombinedFlags();
    Arrives(clientAddr, Outgoing(serverAddr, HANDSHAKE_SYN));
    Arrives(clientAddr, Outgoing(serverAddr, HANDSHAKE_ACK));
    ListenConfirms(server, HANDSHAKE_SYN, HANDSHAKE_ACK);
  }

  /** The three-way handshake with nothing lost: `connect` on one end reads
      what `listen` on the other sends, and `listen` reads what `connect`
      sends. Both ends connect. The client moves past its SYN to 101 and
      acknowledges 43; the server stays at 42 and acknowledges 101, so the
      server's next sequence number is one less than the client's ack. */
  lemma HandshakeCompletes(client: Endpoint, server: Endpoint, clientAddr: Addr, serverAddr: Addr)
    requires client.inbox == [Carrying(serverAddr, Outgoing(clientAddr, HANDSHAKE_SYNACK))]
    requires server.inbox ==
      [Carrying(clientAddr, Outgoing(serverAddr, HANDSHAKE_SYN)),
       Carrying(clientAddr, Outgoing(serverAddr, HANDSHAKE_ACK))]
    ensures var c := ConnectSpec(client, serverAddr);
      var s := ListenSpec(server);
      c.outcome == Returned(()) && s.outcome == Returned(()) &&
      |c.out| == 2 && |s.out| == 1 &&
      Encode(c.out[0]).Some? && Encode(c.out[1]).Some? && Encode(s.out[0]).Some? &&
      [Carrying(clientAddr, c.out[0]), Carrying(clientAddr, c.out[1])] == server.inbox &&
      [Carrying(serverAddr, s.out[0])] == client.inbox &&
      c.after.connected && s.after.connected &&
      c.after.addr == Some(serverAddr) && s.after.addr == Some(clientAddr) &&
      c.after.seqNo == s.after.ackNo && s.after.seqNo + 1 == c.after.ackNo
  {
    ClientHandshake(client, clientAddr, serverAddr);
    ServerHandshake(server, clientAddr, serverAddr);
  }
}

/** BetterUDPSocket itself: the fields the source updates in place, and its
    methods, each proved to have exactly the effect the matching function of
    module Connection describes. */
module Socket {
  import opened Wire
  import opened Connection

  class BetterUdpSocket {
    var addr: Option<Addr>
    var seqNo: nat
    var ackNo: nat
    var connected: bool
    /** The datagrams `recvfrom` has yet to return, in arrival order. */
    var inbox: seq<Datagram>
    /** Every datagram handed to `sendto`, oldest first. */
    var sent: seq<Outgoing>

    function View(): Endpoint
      reads this
    {
      Endpoint(addr, seqNo, ackNo, connected, inbox)
    }

    /** `__init__`: no peer, both numbers zero, not connected. */
    constructor (inbound: seq<Datagram>)
      ensures View() == Fresh(inbound) && sent == []
    {
      addr, seqNo, ackNo, connected := None, 0, 0, false;
      inbox, sent := inbound, [];
    }

    /** `self.sock.sendto(self._make_packet(flags, s, a, data), self.addr)`. */
    method Transmit(flags: Byte, s: nat, a: nat, data: seq<Byte>) returns (r: Result<Outgoing>)
      modifies this`sent
      ensures r == Emit(addr, flags, s, a, data)
      ensures sent == old(sent) + if r.Ok? then [r.value] else []
    {
      var packet := MakePacket(flags, s, a, data);
      if packet.None? {
        return Err(FieldOutOfRange);
      }
      if addr.None? {
        return Err(NoPeerAddress);
      }
      r := Ok(Outgoing(addr.value, Packet(flags, s, a, data)));
      sent := sent + [r.value];
    }

    /** A `while True: recvfrom` loop that stops at the first packet `w` wants. */
    method Await(w: Want) returns (r: Wait)
      modifies this`inbox
      ensures r == Scan(old(inbox), w)
      ensures inbox == Remaining(old(inbox), r)
    {
      ghost var input := inbox;
      var rest, k := inbox, 0;
      r := Exhausted;
      while rest != []
        invariant k <= |input| && rest == input[k..]
        invariant forall j :: 0 <= j < k ==> Passes(w, input[j])
        modifies {}
        decreases |rest|
      {
        var d := rest[0];
        var p := ParsePacket(Received(d));
        ScanAt(input, w, k);
        rest := rest[1..];
        if p.None? || Accepts(w, p.value) {
          r := if p.None? then Malformed(k) else Found(k, d.from, p.value);
          break;
        }
        k := k + 1;
      }
      if r.Exhausted? {
        ScanRunsOut(input, w);
      }
      inbox := rest;
    }

    /** `connect(ip, port)`, lines 24-28; the rest is `Handshake`. The SYN
        cannot fail: the address is set and 100 and 0 are in range. */
    method Connect(host: string, port: int) returns (r: Outcome<()>)
      modifies this
      ensures var s := ConnectSpec(old(View()), Addr(host, port));
        View() == s.after && sent == old(sent) + s.out && r == s.outcome
    {
      ghost var e1 := old(View()).(addr := Some(Addr(host, port)), seqNo := CONNECT_ISN);
      addr, seqNo := Some(Addr(host, port)), CONNECT_ISN;
      var syn := Transmit(SYN, seqNo, 0, []);
      assert View() == e1;
      assert ConnectSpec(old(View()), Addr(host, port)) == SentFirst(syn.value, HandshakeSpec(e1));
      ghost var sent1 := sent;
      r := Handshake();
      assert sent == sent1 + HandshakeSpec(e1).out;
    }

    /** Lines 30-40 of `connect`. */
    method Handshake() returns (r: Outcome<()>)
      modifies this
      ensures var s := HandshakeSpec(old(View()));
        View() == s.after && sent == old(sent) + s.out && r == s.outcome
    {
      ghost var e := View();
      var w := Await(HandshakeReply(seqNo + 1));
      ghost var e1 := e.(inbox := Remaining(e.inbox, w));
      assert View() == e1;
      if w.Exhausted? {
        assert HandshakeSpec(e) == Step(e1, [], Blocked);
        return Blocked;
      }
      if w.Malformed? {
        assert HandshakeSpec(e) == Step(e1, [], Raised(ShortPacket));
        return Raised(ShortPacket);
      }
      assert HandshakeSpec(e) == AcknowledgeSpec(e1, w.pkt);
      r := Acknowledge(w.pkt);
    }

    /** Lines 34 and 38-40 of `connect`, once the peer's answer `p` is in. */
    method Acknowledge(p: Packet) returns (r: Outcome<()>)
      modifies this
      ensures var s := AcknowledgeSpec(old(View()), p);
        View() == s.after && sent == old(sent) + s.out && r == s.outcome
    {
      ackNo, seqNo := p.seqNo + 1, seqNo + 1;
      var sending := Transmit(ACK, seqNo, ackNo, []);
      if sending.Err? {
        return Raised(sending.error);
      }
      connected := true;
      return Returned(());
    }

    /** `listen()`, lines 42-45; the rest is `Answer`. */
    method Listen() returns (r: Outcome<()>)
      modifies this
      ensures var s := ListenSpec(old(View()));
        View() == s.after && sent == old(sent) + s.out && r == s.outcome
    {
      ghost var e := View();
      var w := Await(AnyPacket);
      ghost var e1 := e.(inbox := Remaining(e.inbox, w));
      assert View() == e1;
      if w.Exhausted? {
        assert ListenSpec(e) == Step(e1, [], Blocked);
        return Blocked;
      }
      if w.Malformed? {
        assert ListenSpec(e) == Step(e1, [], Raised(ShortPacket));
        return Raised(ShortPacket);
      }
      if !SynSet(w.pkt.flags) {
        assert ListenSpec(e) == Step(e1, [], Returned(()));
        return Returned(());
      }
      assert ListenSpec(e) == AnswerSpec(e1, w.from, w.pkt);
      r := Answer(w.from, w.pkt);
    }

    /** Lines 46-50 of `listen`, once a SYN `p` has come from `from`; the rest
        is `Confirm`. */
    method Answer(from: Addr, p: Packet) returns (r: Outcome<()>)
      modifies this
      ensures var s := AnswerSpec(old(View()), from, p);
        View() == s.after && sent == old(sent) + s.out && r == s.outcome
    {
      ghost var e1 := old(View()).(addr := Some(from), ackNo := p.seqNo + 1, seqNo := LISTEN_ISN);
      addr, ackNo, seqNo := Some(from), p.seqNo + 1, LISTEN_ISN;
      var sending := Transmit(Union(SYN, ACK), seqNo, ackNo, []);
      assert View() == e1;
      if sending.Err? {
        return Raised(sending.error);
      }
      assert AnswerSpec(old(View()), from, p) == SentFirst(sending.value, ConfirmSpec(e1));
      ghost var sent1 := sent;
      r := Confirm();
      assert sent == sent1 + ConfirmSpec(e1).out;
    }

    /** Lines 52-55 of `listen`. */
    method Confirm() returns (r: Outcome<()>)
      modifies this
      ensures var s := ConfirmSpec(old(View()));
        View() == s.after && sent == old(sent) + s.out && r == s.outcome
    {
      ghost var e := View();
      var w := Await(AnyPacket);
      ghost var e1 := e.(inbox := Remaining(e.inbox, w));
      assert View() == e1;
      if w.Exhausted? {
        assert ConfirmSpec(e) == Step(e1, [], Blocked);
        return Blocked;
      }
      if w.Malformed? {
        assert ConfirmSpec(e) == Step(e1, [], Raised(ShortPacket));
        return Raised(ShortPacket);
      }
      if AckSet(w.pkt.flags) && w.pkt.ackNo == seqNo + 1 {
        connected := true;
        assert ConfirmSpec(e) == Step(e1.(connected := true), [], Returned(()));
      } else {
        assert ConfirmSpec(e) == Step(e1, [], Returned(()));
      }
      return Returned(());
    }

    /** `send(data)`, lines 57-62. */
    method Send(data: seq<Byte>) returns (r: Outcome<()>)
      modifies this
      ensures var s := SendSpec(old(View()), data);
        View() == s.after && sent == old(sent) + s.out && r == s.outcome
    {
      if !connected {
        return Raised(NotConnected);
      }
      var sending := Transmit(ACK, seqNo, ackNo, data);
      if sending.Err? {
        return Raised(sending.error);
      }
      seqNo := seqNo + |data|;
      return Returned(());
    }

    /** `receive()`, lines 64-73. */
    method Receive() returns (r: Outcome<Option<seq<Byte>>>)
      modifies this
      ensures var s := ReceiveSpec(old(View()));
        View() == s.after && sent == old(sent) + s.out && r == s.outcome
    {
      ghost var e := View();
      var w := Await(FinOrAck);
      ghost var e1 := e.(inbox := Remaining(e.inbox, w));
      assert View() == e1;
      if w.Exhausted? {
        assert ReceiveSpec(e) == Step(e1, [], Blocked);
        return Blocked;
      }
      if w.Malformed? {
        assert ReceiveSpec(e) == Step(e1, [], Raised(ShortPacket));
        return Raised(ShortPacket);
      }
      if FinSet(w.pkt.flags) {
        ghost var sent1 := sent;
        assert ReceiveSpec(e).after == ResponseCloseSpec(e1).after;
        var closed := ResponseClose();
        assert sent == sent1 + ResponseCloseSpec(e1).out;
        if closed.Raised? {
          return Raised(closed.error);
        }
        return Returned(None);
      }
      ackNo := w.pkt.seqNo + |w.pkt.data|;
      assert ReceiveSpec(e) == Step(View(), [], Returned(Some(w.pkt.data)));
      return Returned(Some(w.pkt.data));
    }

    /** `response_close()`, lines 115-121 (less the `print`). */
    method ResponseClose() returns (r: Outcome<()>)
      modifies this
      ensures var s := ResponseCloseSpec(old(View()));
        View() == s.after && sent == old(sent) + s.out && r == s.outcome
    {
      var sending := Transmit(Union(FIN, ACK), seqNo, ackNo, []);
      if sending.Err? {
        return Raised(sending.error);
      }
      connected := false;
      return Returned(());
    }

    /** `close()`, lines 79-82; the rest is `AwaitCloseAck`. */
    method Close() returns (r: Outcome<()>)
      modifies this
      ensures var s := CloseSpec(old(View()));
        View() == s.after && sent == old(sent) + s.out && r == s.outcome
    {
      ghost var e := View();
      var sending := Transmit(FIN, seqNo, ackNo, []);
      assert View() == e;
      if sending.Err? {
        return Raised(sending.error);
      }
      assert CloseSpec(e) == SentFirst(sending.value, CloseAckSpec(e));
      ghost var sent1 := sent;
      r := AwaitCloseAck();
      assert sent == sent1 + CloseAckSpec(e).out;
    }

    /** The outer loop of `close`, lines 86-96 and 105. */
    method AwaitCloseAck() returns (r: Outcome<()>)
      modifies this
      ensures var s := CloseAckSpec(old(View()));
        View() == s.after && sent == old(sent) + s.out && r == s.outcome
    {
      ghost var e := View();
      var w := Await(AckOf(seqNo));
      ghost var e1 := e.(inbox := Remaining(e.inbox, w));
      assert View() == e1;
      if w.Exhausted? {
        assert CloseAckSpec(e) == Step(e1, [], Blocked);
        return Blocked;
      }
      if w.Malformed? {
        assert CloseAckSpec(e) == Step(e1, [], Raised(ShortPacket));
        return Raised(ShortPacket);
      }
      ghost var sent1 := sent;
      if FinSet(w.pkt.flags) {
        ackNo := w.pkt.seqNo + 1;
        assert CloseAckSpec(e) == FinishCloseSpec(View());
        r := FinishClose();
      } else {
        assert CloseAckSpec(e) == PeerFinSpec(e1);
        r := AwaitPeerFin();
      }
    }

    /** The inner loop of `close`, lines 97-104. */
    method AwaitPeerFin() returns (r: Outcome<()>)
      modifies this
      ensures var s := PeerFinSpec(old(View()));
        View() == s.after && sent == old(sent) + s.out && r == s.outcome
    {
      ghost var e := View();
      var w := Await(AnyFin);
      ghost var e1 := e.(inbox := Remaining(e.inbox, w));
      assert View() == e1;
      if w.Exhausted? {
        assert PeerFinSpec(e) == Step(e1, [], Blocked);
        return Blocked;
      }
      if w.Malformed? {
        assert PeerFinSpec(e) == Step(e1, [], Raised(ShortPacket));
        return Raised(ShortPacket);
      }
      ackNo := w.pkt.seqNo + 1;
      assert PeerFinSpec(e) == FinishCloseSpec(View());
      r := FinishClose();
    }

    /** Lines 93-94 or 102-103 of `close`, then 108-112 (less the `print`). */
    method FinishClose() returns (r: Outcome<()>)
      modifies this
      ensures var s := FinishCloseSpec(old(View()));
        View() == s.after && sent == old(sent) + s.out && r == s.outcome
    {
      var sending := Transmit(ACK, seqNo, ackNo, []);
      if sending.Err? {
        return Raised(sending.error);
      }
      sending := Transmit(ACK, seqNo, ackNo, []);
      connected := false;
      return Returned(());
    }
  }
}

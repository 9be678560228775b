/** What BetterUDPSocket promises, proved of the functions of module
    Connection (and so, through their contracts, of the class's methods). */
module Properties {
  import opened Wire
  import opened Connection

  /** The packet `ParsePacket` finds in the last datagram a step read. */
  function LastRead(before: seq<Datagram>, after: seq<Datagram>): Option<Packet>
  {
    if |after| < |before| then ParsePacket(Received(before[|before| - |after| - 1])) else None
  }

  /** A found stop is the datagram just before what the loop leaves unread. */
  lemma FoundIsLastRead(inbox: seq<Datagram>, w: Want)
    requires Scan(inbox, w).Found?
    ensures var r := Scan(inbox, w);
      LastRead(inbox, Remaining(inbox, r)) == Some(r.pkt) && Accepts(w, r.pkt)
  {
    ScanExplains(inbox, w);
  }

  /** `connected` is only ever set by code that has just set `addr`. */
  predicate Linked(e: Endpoint)
  {
    e.connected ==> e.addr.Some?
  }

  /** `__init__` and `connect` set `Linked` up from any state. */
  lemma ConnectLinks(e: Endpoint, to: Addr)
    ensures Linked(Fresh(e.inbox))
    ensures Linked(ConnectSpec(e, to).after)
  {
  }

  /** `listen` keeps `Linked`. */
  lemma ListenKeepsLinked(e: Endpoint)
    requires Linked(e)
    ensures Linked(ListenSpec(e).after)
  {
  }

  /** `send` keeps `Linked`. */
  lemma SendKeepsLinked(e: Endpoint, data: seq<Byte>)
    requires Linked(e)
    ensures Linked(SendSpec(e, data).after)
  {
  }

  /** `receive` keeps `Linked`. */
  lemma ReceiveKeepsLinked(e: Endpoint)
    requires Linked(e)
    ensures Linked(ReceiveSpec(e).after)
  {
  }

  /** `close` keeps `Linked`. */
  lemma CloseKeepsLinked(e: Endpoint)
    requires Linked(e)
    ensures Linked(CloseSpec(e).after)
  {
  }

  // ---------------------------------------------------------------------------
  // connect

  /** After the SYN, `connect` passes over every reply that lacks both the SYN
      and the ACK bit or acknowledges anything but 101; the first one that
      has either bit and acknowledges 101 connects it. */
  lemma ConnectEstablishes(e: Endpoint, to: Addr, k: nat, p: Packet)
    requires k < |e.inbox|
    requires forall j :: 0 <= j < k ==> Passes(HandshakeReply(CONNECT_ISN + 1), e.inbox[j])
    requires ParsePacket(Received(e.inbox[k])) == Some(p)
    requires SynOrAckSet(p.flags)
    requires p.ackNo == 101 && p.seqNo + 1 < WORD_LIMIT
    ensures var s := ConnectSpec(e, to);
      s.outcome == Returned(()) &&
      s.after == Endpoint(Some(to), 101, p.seqNo + 1, true, e.inbox[k + 1..]) &&
      s.out == [Outgoing(to, Packet(SYN, 100, 0, [])),
                Outgoing(to, Packet(ACK, 101, p.seqNo + 1, []))]
  {
    ScanFinds(e.inbox, HandshakeReply(CONNECT_ISN + 1), k, p);
  }

  /** Whatever arrives, `connect` sends the SYN first to the peer it was given,
      and it connects, with sequence number 101, exactly when it returns. */
  lemma ConnectEffect(e: Endpoint, to: Addr)
    ensures var s := ConnectSpec(e, to);
      s.after.addr == Some(to) &&
      1 <= |s.out| <= 2 &&
      s.out[0] == Outgoing(to, Packet(SYN, 100, 0, [])) &&
      (s.outcome.Returned? <==> |s.out| == 2) &&
      (s.outcome.Returned? ==> s.after.connected && s.after.seqNo == 101) &&
      (!s.outcome.Returned? ==> s.after.connected == e.connected)
  {
    var e1 := e.(addr := Some(to), seqNo := CONNECT_ISN);
    var w := Scan(e1.inbox, HandshakeReply(CONNECT_ISN + 1));
    if w.Found? {
      var e2 := e1.(inbox := Remaining(e1.inbox, w));
      assert HandshakeSpec(e1) == AcknowledgeSpec(e2, w.pkt);
    }
  }

  /** When no reply ever qualifies, `connect` reads everything and waits on,
      having sent only the SYN. */
  lemma ConnectBlocks(e: Endpoint, to: Addr)
    requires forall j :: 0 <= j < |e.inbox| ==> Passes(HandshakeReply(CONNECT_ISN + 1), e.inbox[j])
    ensures var s := ConnectSpec(e, to);
      s.outcome == Blocked &&
      s.after == Endpoint(Some(to), 100, e.ackNo, e.connected, []) &&
      s.out == [Outgoing(to, Packet(SYN, 100, 0, []))]
  {
    ScanRunsOut(e.inbox, HandshakeReply(CONNECT_ISN + 1));
  }

  // ---------------------------------------------------------------------------
  // listen

  /** A first datagram without SYN is read and dropped: nothing is sent and no
      field changes. */
  lemma ListenIgnoresNonSyn(e: Endpoint, p: Packet)
    requires e.inbox != []
    requires ParsePacket(Received(e.inbox[0])) == Some(p) && !SynSet(p.flags)
    ensures ListenSpec(e) == Step(e.(inbox := e.inbox[1..]), [], Returned(()))
  {
    ScanFinds(e.inbox, AnyPacket, 0, p);
  }

  /** A SYN makes `listen` adopt its sender, take its sequence number plus
      one as the ack, start at 42 and answer SYN|ACK, whatever follows it.
      With nothing after the SYN it then waits; with a datagram too short
      to parse it raises; either way `connected` is left as it was. */
  lemma ListenAnswersSyn(e: Endpoint, p: Packet)
    requires e.inbox != []
    requires ParsePacket(Received(e.inbox[0])) == Some(p) && SynSet(p.flags)
    requires p.seqNo + 1 < WORD_LIMIT
    ensures var s := ListenSpec(e);
      var from := e.inbox[0].from;
      s.out == [Outgoing(from, Packet(Union(SYN, ACK), 42, p.seqNo + 1, []))] &&
      s.after.addr == Some(from) && s.after.seqNo == 42 && s.after.ackNo == p.seqNo + 1 &&
      (|e.inbox| == 1 ==>
         s.outcome == Blocked && s.after == Endpoint(Some(from), 42, p.seqNo + 1, e.connected, [])) &&
      (|e.inbox| >= 2 && ParsePacket(Received(e.inbox[1])).None? ==>
         s.outcome == Raised(ShortPacket) &&
         s.after == Endpoint(Some(from), 42, p.seqNo + 1, e.connected, e.inbox[2..]))
  {
    ScanFinds(e.inbox, AnyPacket, 0, p);
    var e1 := e.(inbox := e.inbox[1..]);
    assert ListenSpec(e) == AnswerSpec(e1, e.inbox[0].from, p);
    if |e.inbox| == 1 {
      ScanRunsOut(e1.inbox, AnyPacket);
    } else {
      ScanFirst(e1.inbox, AnyPacket);
      assert e1.inbox[1..] == e.inbox[2..];
    }
  }

  /** After the SYN, `listen` connects only if the next datagram has the ACK
      bit and acknowledges 43, and otherwise leaves `connected` as it was. */
  lemma ListenConfirms(e: Endpoint, p: Packet, q: Packet)
    requires |e.inbox| >= 2
    requires ParsePacket(Received(e.inbox[0])) == Some(p) && SynSet(p.flags)
    requires p.seqNo + 1 < WORD_LIMIT
    requires ParsePacket(Received(e.inbox[1])) == Some(q)
    ensures var s := ListenSpec(e);
      var from := e.inbox[0].from;
      s.outcome == Returned(()) &&
      s.out == [Outgoing(from, Packet(Union(SYN, ACK), 42, p.seqNo + 1, []))] &&
      s.after == Endpoint(Some(from), 42, p.seqNo + 1,
                          e.connected || (AckSet(q.flags) && q.ackNo == 43), e.inbox[2..])
  {
    ScanFinds(e.inbox, AnyPacket, 0, p);
    var e1 := e.(inbox := e.inbox[1..]);
    assert ListenSpec(e) == AnswerSpec(e1, e.inbox[0].from, p);
    ScanFinds(e1.inbox, AnyPacket, 0, q);
    assert e1.inbox[1..] == e.inbox[2..];
  }

  // ---------------------------------------------------------------------------
  // send

  /** `send` raises "Not connected" and does nothing else when not connected;
      otherwise it sends one ACK packet with the sequence and ack numbers it
      had and the data, and then only `seq` changes, by the length of the data. */
  lemma SendEffect(e: Endpoint, data: seq<Byte>)
    ensures var s := SendSpec(e, data);
      (!e.connected ==> s == Step(e, [], Raised(NotConnected))) &&
      (Linked(e) ==> s.outcome != Raised(NoPeerAddress)) &&
      (s.outcome.Returned? <==> e.connected && e.addr.Some? && e.seqNo < WORD_LIMIT && e.ackNo < WORD_LIMIT) &&
      (!s.outcome.Returned? ==> s.after == e && s.out == []) &&
      (s.outcome.Returned? ==>
         s.after == e.(seqNo := e.seqNo + |data|) &&
         s.out == [Outgoing(e.addr.value, Packet(ACK, e.seqNo, e.ackNo, data))] &&
         ParsePacket(Encode(s.out[0]).value) == Some(Packet(ACK, e.seqNo, e.ackNo, data)))
  {
    if SendSpec(e, data).outcome.Returned? {
      EmitParses(e.addr, ACK, e.seqNo, e.ackNo, data);
    }
  }

  // ---------------------------------------------------------------------------
  // receive

  /** A FIN, with or without ACK, that `receive` reaches is answered with
      FIN|ACK carrying the unchanged sequence and ack numbers; the connection
      is dropped and the result is None. */
  lemma ReceiveAnswersFin(e: Endpoint, k: nat, p: Packet)
    requires k < |e.inbox|
    requires forall j :: 0 <= j < k ==> Passes(FinOrAck, e.inbox[j])
    requires ParsePacket(Received(e.inbox[k])) == Some(p) && FinSet(p.flags)
    requires e.addr.Some? && e.seqNo < WORD_LIMIT && e.ackNo < WORD_LIMIT
    ensures ReceiveSpec(e) ==
      Step(e.(connected := false, inbox := e.inbox[k + 1..]),
           [Outgoing(e.addr.value, Packet(Union(FIN, ACK), e.seqNo, e.ackNo, []))],
           Returned(None))
  {
    ScanFinds(e.inbox, FinOrAck, k, p);
  }

  /** An ACK without FIN that `receive` reaches gives its payload; the ack
      number becomes that packet's sequence number plus the payload length,
      and nothing is sent. */
  lemma ReceiveTakesData(e: Endpoint, k: nat, p: Packet)
    requires k < |e.inbox|
    requires forall j :: 0 <= j < k ==> Passes(FinOrAck, e.inbox[j])
    requires ParsePacket(Received(e.inbox[k])) == Some(p)
    requires AckSet(p.flags) && !FinSet(p.flags)
    ensures ReceiveSpec(e) ==
      Step(e.(ackNo := p.seqNo + |p.data|, inbox := e.inbox[k + 1..]), [], Returned(Some(p.data)))
    ensures |p.data| <= RECV_BUFFER - HEADER_SIZE
  {
    ScanFinds(e.inbox, FinOrAck, k, p);
  }

  /** Whatever arrives: `receive` never changes `seq`; a payload comes from
      the last datagram read, an ACK without FIN, is at most 1015 bytes and
      moves `ack` to that packet's sequence number plus its length; None
      comes after a FIN and leaves the connection dropped. */
  lemma ReceiveEffect(e: Endpoint)
    ensures var s := ReceiveSpec(e);
      s.after.seqNo == e.seqNo &&
      (s.outcome.Returned? && s.outcome.value.Some? ==>
         var p := LastRead(e.inbox, s.after.inbox);
         p.Some? && AckSet(p.value.flags) && !FinSet(p.value.flags) &&
         s.outcome.value.value == p.value.data &&
         |p.value.data| <= RECV_BUFFER - HEADER_SIZE &&
         s.after == e.(ackNo := p.value.seqNo + |p.value.data|, inbox := s.after.inbox) &&
         s.out == []) &&
      (s.outcome.Returned? && s.outcome.value.None? ==>
         var p := LastRead(e.inbox, s.after.inbox);
         p.Some? && FinSet(p.value.flags) &&
         !s.after.connected && |s.out| == 1)
  {
    var w := Scan(e.inbox, FinOrAck);
    if w.Found? {
      FoundIsLastRead(e.inbox, FinOrAck);
    }
  }

  // ---------------------------------------------------------------------------
  // close

  /** The final part of `close`: whatever the ack, two identical ACKs. */
  lemma FinishCloseEffect(e: Endpoint)
    ensures var s := FinishCloseSpec(e);
      s.after.seqNo == e.seqNo && s.after.ackNo == e.ackNo && s.after.inbox == e.inbox &&
      (s.outcome.Returned? <==> s.out != []) &&
      (s.outcome.Returned? ==>
         !s.after.connected && e.addr.Some? &&
         var ack := Outgoing(e.addr.value, Packet(ACK, e.seqNo, e.ackNo, []));
         s.out == [ack, ack])
  {
  }

  /** A datagram read after some earlier ones is the same datagram seen
      from the start of the input. */
  lemma LastReadFromLater(before: seq<Datagram>, mid: seq<Datagram>, after: seq<Datagram>)
    requires |mid| <= |before| && mid == before[|before| - |mid|..]
    requires |after| < |mid|
    ensures LastRead(before, after) == LastRead(mid, after)
  {
    assert mid[|mid| - |after| - 1] == before[|before| - |after| - 1];
  }

  /** The inner loop of `close`: on return the last datagram read was a FIN
      whose sequence number plus one is the new ack, acknowledged twice. */
  lemma PeerFinEffect(e: Endpoint)
    ensures var s := PeerFinSpec(e);
      s.after.seqNo == e.seqNo &&
      |s.after.inbox| <= |e.inbox| && s.after.inbox == e.inbox[|e.inbox| - |s.after.inbox|..] &&
      (s.outcome.Returned? ==>
         var p := LastRead(e.inbox, s.after.inbox);
         p.Some? && FinSet(p.value.flags) && s.after.ackNo == p.value.seqNo + 1 &&
         !s.after.connected && e.addr.Some? &&
         var ack := Outgoing(e.addr.value, Packet(ACK, e.seqNo, s.after.ackNo, []));
         s.out == [ack, ack])
  {
    var w := Scan(e.inbox, AnyFin);
    if w.Found? {
      FoundIsLastRead(e.inbox, AnyFin);
      FinishCloseEffect(e.(inbox := Remaining(e.inbox, w), ackNo := w.pkt.seqNo + 1));
    }
  }

  /** How `close` ends once it has sent its FIN, by either path: `seq`
      unchanged, and on return the same facts as `PeerFinEffect`. */
  lemma CloseAckEffect(e: Endpoint)
    ensures var s := CloseAckSpec(e);
      s.after.seqNo == e.seqNo &&
      (s.outcome.Returned? ==>
         var p := LastRead(e.inbox, s.after.inbox);
         p.Some? && FinSet(p.value.flags) && s.after.ackNo == p.value.seqNo + 1 &&
         !s.after.connected && e.addr.Some? &&
         var ack := Outgoing(e.addr.value, Packet(ACK, e.seqNo, s.after.ackNo, []));
         s.out == [ack, ack])
  {
    var w := Scan(e.inbox, AckOf(e.seqNo));
    if w.Found? {
      FoundIsLastRead(e.inbox, AckOf(e.seqNo));
      var e1 := e.(inbox := Remaining(e.inbox, w));
      if FinSet(w.pkt.flags) {
        FinishCloseEffect(e1.(ackNo := w.pkt.seqNo + 1));
      } else {
        assert CloseAckSpec(e) == PeerFinSpec(e1);
        PeerFinEffect(e1);
        var s := PeerFinSpec(e1);
        if s.outcome.Returned? {
          LastReadFromLater(e.inbox, e1.inbox, s.after.inbox);
        }
      }
    }
  }

  /** `close` never changes `seq`; what it sends starts with FIN carrying its
      sequence and ack numbers; when it returns it has sent exactly FIN, ACK,
      ACK, the connection is dropped, and the ack is the peer's FIN sequence
      number plus one. */
  lemma CloseEffect(e: Endpoint)
    ensures var s := CloseSpec(e);
      s.after.seqNo == e.seqNo &&
      (s.out != [] ==> e.addr.Some? && s.out[0] == Outgoing(e.addr.value, Packet(FIN, e.seqNo, e.ackNo, []))) &&
      (s.outcome.Returned? ==>
         var p := LastRead(e.inbox, s.after.inbox);
         p.Some? && FinSet(p.value.flags) && s.after.ackNo == p.value.seqNo + 1 &&
         !s.after.connected &&
         var ack := Outgoing(e.addr.value, Packet(ACK, e.seqNo, s.after.ackNo, []));
         s.out == [Outgoing(e.addr.value, Packet(FIN, e.seqNo, e.ackNo, [])), ack, ack])
  {
    CloseAckEffect(e);
  }

  /** The outer loop of `close` reads and drops a datagram that lacks the ACK
      bit or acknowledges anything but `seq`. */
  lemma CloseAckSkips(e: Endpoint, p: Packet)
    requires e.inbox != []
    requires ParsePacket(Received(e.inbox[0])) == Some(p)
    requires !(AckSet(p.flags) && p.ackNo == e.seqNo)
    ensures CloseAckSpec(e) == CloseAckSpec(e.(inbox := e.inbox[1..]))
  {
    ScanFirst(e.inbox, AckOf(e.seqNo));
  }

  /** The inner loop of `close` reads and drops a datagram without FIN. */
  lemma PeerFinSkips(e: Endpoint, p: Packet)
    requires e.inbox != []
    requires ParsePacket(Received(e.inbox[0])) == Some(p) && !FinSet(p.flags)
    ensures PeerFinSpec(e) == PeerFinSpec(e.(inbox := e.inbox[1..]))
  {
    ScanFirst(e.inbox, AnyFin);
  }

  /** Past datagrams without FIN, the first FIN ends the inner loop of
      `close`: `ack` becomes its sequence number plus one, that ACK goes out
      twice and the connection is dropped. */
  lemma PeerFinArrives(e: Endpoint, m: nat, q: Packet)
    requires e.addr.Some? && e.seqNo < WORD_LIMIT
    requires m < |e.inbox|
    requires forall j :: 0 <= j < m ==> Passes(AnyFin, e.inbox[j])
    requires ParsePacket(Received(e.inbox[m])) == Some(q) && FinSet(q.flags) && q.seqNo + 1 < WORD_LIMIT
    ensures var ack := Outgoing(e.addr.value, Packet(ACK, e.seqNo, q.seqNo + 1, []));
      PeerFinSpec(e) ==
      Step(e.(ackNo := q.seqNo + 1, connected := false, inbox := e.inbox[m + 1..]), [ack, ack], Returned(()))
  {
    ScanFinds(e.inbox, AnyFin, m, q);
  }

  /** Datagrams a loop passes over between `k` and `m` are, in the rest
      after `k`, the first `m - k - 1`. */
  lemma PassesAfter(inbox: seq<Datagram>, w: Want, k: nat, m: nat, rest: seq<Datagram>)
    requires k < m < |inbox| && rest == inbox[k + 1..]
    requires forall j :: k < j < m ==> Passes(w, inbox[j])
    ensures forall j :: 0 <= j < m - k - 1 ==> Passes(w, rest[j])
    ensures rest[m - k - 1] == inbox[m] && rest[m - k..] == inbox[m + 1..]
  {
    forall j | 0 <= j < m - k - 1
      ensures Passes(w, rest[j])
    {
      assert rest[j] == inbox[k + 1 + j];
    }
  }

  /** `close` with a peer and numbers that fit sends FIN and goes on into
      its outer loop. */
  lemma CloseSendsFin(e: Endpoint)
    requires e.addr.Some? && e.seqNo < WORD_LIMIT && e.ackNo < WORD_LIMIT
    ensures CloseSpec(e) == SentFirst(Outgoing(e.addr.value, Packet(FIN, e.seqNo, e.ackNo, [])), CloseAckSpec(e))
  {
  }

  /** Past datagrams it drops, an ACK of `seq` that carries FIN too ends the
      outer loop of `close` at once: the ACK of that FIN goes out twice and
      the connection is dropped. */
  lemma CloseAckOnFinAck(e: Endpoint, k: nat, p: Packet)
    requires e.addr.Some? && e.seqNo < WORD_LIMIT
    requires k < |e.inbox|
    requires forall j :: 0 <= j < k ==> Passes(AckOf(e.seqNo), e.inbox[j])
    requires ParsePacket(Received(e.inbox[k])) == Some(p)
    requires AckSet(p.flags) && FinSet(p.flags) && p.ackNo == e.seqNo && p.seqNo + 1 < WORD_LIMIT
    ensures var ack := Outgoing(e.addr.value, Packet(ACK, e.seqNo, p.seqNo + 1, []));
      CloseAckSpec(e) ==
      Step(e.(ackNo := p.seqNo + 1, connected := false, inbox := e.inbox[k + 1..]), [ack, ack], Returned(()))
  {
    ScanFinds(e.inbox, AckOf(e.seqNo), k, p);
  }

  /** An ACK of `seq` without FIN sends the outer loop of `close` into the
      inner one, on the datagrams after it. */
  lemma CloseAckWaitsForFin(e: Endpoint, k: nat, p: Packet)
    requires k < |e.inbox|
    requires forall j :: 0 <= j < k ==> Passes(AckOf(e.seqNo), e.inbox[j])
    requires ParsePacket(Received(e.inbox[k])) == Some(p)
    requires AckSet(p.flags) && !FinSet(p.flags) && p.ackNo == e.seqNo
    ensures CloseAckSpec(e) == PeerFinSpec(e.(inbox := e.inbox[k + 1..]))
  {
    ScanFinds(e.inbox, AckOf(e.seqNo), k, p);
  }

  /** The bare-ACK path of the outer loop: past dropped datagrams an ACK of
      `seq` without FIN, past more datagrams without FIN the peer's FIN,
      whose ACK then goes out twice, and the connection is dropped. */
  lemma CloseAckOnAckThenFin(e: Endpoint, k: nat, p: Packet, m: nat, q: Packet)
    requires e.addr.Some? && e.seqNo < WORD_LIMIT
    requires k < m < |e.inbox|
    requires forall j :: 0 <= j < k ==> Passes(AckOf(e.seqNo), e.inbox[j])
    requires ParsePacket(Received(e.inbox[k])) == Some(p)
    requires AckSet(p.flags) && !FinSet(p.flags) && p.ackNo == e.seqNo
    requires forall j :: k < j < m ==> Passes(AnyFin, e.inbox[j])
    requires ParsePacket(Received(e.inbox[m])) == Some(q) && FinSet(q.flags) && q.seqNo + 1 < WORD_LIMIT
    ensures var ack := Outgoing(e.addr.value, Packet(ACK, e.seqNo, q.seqNo + 1, []));
      CloseAckSpec(e) ==
      Step(e.(ackNo := q.seqNo + 1, connected := false, inbox := e.inbox[m + 1..]), [ack, ack], Returned(()))
  {
    CloseAckWaitsForFin(e, k, p);
    var e1 := e.(inbox := e.inbox[k + 1..]);
    PassesAfter(e.inbox, AnyFin, k, m, e1.inbox);
    PeerFinArrives(e1, m - k - 1, q);
  }

  /** `close` whose peer answers FIN|ACK: past datagrams the outer loop
      drops, an ACK of `seq` that carries FIN too ends `close` at once. It
      has sent FIN, then the ACK of that FIN twice, and the connection is
      dropped. */
  lemma CloseOnFinAck(e: Endpoint, k: nat, p: Packet)
    requires e.addr.Some? && e.seqNo < WORD_LIMIT && e.ackNo < WORD_LIMIT
    requires k < |e.inbox|
    requires forall j :: 0 <= j < k ==> Passes(AckOf(e.seqNo), e.inbox[j])
    requires ParsePacket(Received(e.inbox[k])) == Some(p)
    requires AckSet(p.flags) && FinSet(p.flags) && p.ackNo == e.seqNo && p.seqNo + 1 < WORD_LIMIT
    ensures var ack := Outgoing(e.addr.value, Packet(ACK, e.seqNo, p.seqNo + 1, []));
      CloseSpec(e) ==
      Step(e.(ackNo := p.seqNo + 1, connected := false, inbox := e.inbox[k + 1..]),
           [Outgoing(e.addr.value, Packet(FIN, e.seqNo, e.ackNo, [])), ack, ack],
           Returned(()))
  {
    CloseSendsFin(e);
    CloseAckOnFinAck(e, k, p);
  }

  /** `close` whose peer answers ACK and FIN apart: it has sent FIN, then
      the ACK of the peer's FIN twice, and the connection is dropped. */
  lemma CloseOnAckThenFin(e: Endpoint, k: nat, p: Packet, m: nat, q: Packet)
    requires e.addr.Some? && e.seqNo < WORD_LIMIT && e.ackNo < WORD_LIMIT
    requires k < m < |e.inbox|
    requires forall j :: 0 <= j < k ==> Passes(AckOf(e.seqNo), e.inbox[j])
    requires ParsePacket(Received(e.inbox[k])) == Some(p)
    requires AckSet(p.flags) && !FinSet(p.flags) && p.ackNo == e.seqNo
    requires forall j :: k < j < m ==> Passes(AnyFin, e.inbox[j])
    requires ParsePacket(Received(e.inbox[m])) == Some(q) && FinSet(q.flags) && q.seqNo + 1 < WORD_LIMIT
    ensures var ack := Outgoing(e.addr.value, Packet(ACK, e.seqNo, q.seqNo + 1, []));
      CloseSpec(e) ==
      Step(e.(ackNo := q.seqNo + 1, connected := false, inbox := e.inbox[m + 1..]),
           [Outgoing(e.addr.value, Packet(FIN, e.seqNo, e.ackNo, [])), ack, ack],
           Returned(()))
  {
    CloseSendsFin(e);
    CloseAckOnAckThenFin(e, k, p, m, q);
  }
}

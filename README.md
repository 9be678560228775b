# BetterUDPSocket in Dafny

A model of `BetterUDPSocket` from `TubesJarkom/custom_socket.py`, the connection layer of a
TCP-over-UDP chat room. The class frames every datagram with a 9-byte header. The header holds a
flags byte (SYN = 1, ACK = 2, FIN = 4), a 4-byte sequence number and a 4-byte acknowledgment
number, all in network byte order, and the payload follows it. On top of that framing the class runs
a three-way handshake (`connect` / `listen`), sends data (`send`), receives it (`receive`) and tears
the connection down (`close` / `response_close`).

The model has five modules:

- `Wire` (wire.dfy) covers the codec. `MakePacket` and `ParsePacket` are `_make_packet` and
  `_parse_packet`. The `!BII` fields are written out as big-endian byte arithmetic. Python's
  `flags & mask` and `a | b` on bytes are written out bit by bit (`Intersection`, `Union`), each
  proved to act on every bit separately, and
  `FlagTests` shows that each flag test the socket makes reads one bit, or for `flags & (SYN | ACK)`
  the low two bits.
- `Connection` (connection.dfy) holds the reference semantics. An `Endpoint` is the fields
  `addr`, `seq` (`seqNo`), `ack` (`ackNo`) and `connected`, plus the datagrams `recvfrom` has yet
  to return. For each operation a function gives the new endpoint, the datagrams handed to
  `sendto`, and how the call ends:
  - `Returned` when it returns;
  - `Blocked` when it would wait forever in `recvfrom` because the input is used up;
  - `Raised` with the reason when Python would raise.

  `Scan` is a `while True: recvfrom` loop. It stops at the first datagram the loop wants, or at one
  too short to unpack.
- `Socket` (socket.dfy) holds the class `BetterUdpSocket`. It has the same fields, plus the
  remaining input and the log of sent datagrams. Its methods update them step by step as the source
  does, with the receive loops as `while` loops over the input. Each method is proved to have
  exactly the effect of its function in `Connection`.
- `Properties` (properties.dfy) proves what each operation promises: its effect on the fields, what
  it sends, and when it connects or disconnects. It also proves that every operation keeps
  `connected` implying a known peer (`Linked`).
- `Exchange` (exchange.dfy) puts two endpoints together. What one end sends arrives on the other as
  `recvfrom(1024)` returns it. Two consequences of the code are proved there:
  - A payload longer than 1015 bytes reaches the receiver cut to its first 1015 bytes. The
    receiver's `ack` then falls behind the sender's `seq` (`Exchange.Delivery`, which holds in both
    directions).
  - After a handshake the client has moved past its SYN to 101, while the server stays at 42 and the
    client acknowledges 43 (`Exchange.HandshakeCompletes`).

Where the source calls `struct.pack` on a sequence or ack number of 2^32 or more, the model follows
the code: the call raises (`FieldOutOfRange`). This covers `seq` grown past 2^32 by `send`. Callers
are not required to avoid it.

The code has no checksum, CRC, retransmission, timeout, sliding window or random initial sequence number. The
initial sequence numbers are the constants 100 and 42. `close` waits for an ACK whose ack field
equals `seq` (not `seq + 1`), and then for a FIN.

## Model

| member | source | states |
|---|---|---|
| Wire.FlagTests | TubesJarkom/custom_socket.py:4-6 | `flags & SYN`, `flags & ACK` and `flags & FIN` are each nonzero exactly when that one bit is set. `flags & (SYN \| ACK)` is nonzero exactly when the SYN bit or the ACK bit is set, so either bit is enough. |
| Wire.Intersection | TubesJarkom/custom_socket.py:33 | Python's `&` on two bytes, as used in the flag tests at lines 33, 45, 54, 68, 71, 90, 91 and 100: each of the eight bits of the result is set exactly when it is set in both operands. |
| Wire.Union | TubesJarkom/custom_socket.py:49 | Python's `\|` on two bytes, as used at lines 33, 49 and 118: each of the eight bits of the result is set exactly when it is set in either operand. |
| Wire.CombinedFlags | TubesJarkom/custom_socket.py:49 | `SYN \| ACK` (built at line 49, and tested at line 33) is 3, and `FIN \| ACK` (built at line 118) is 6. |
| Wire.FromToBigEndian | TubesJarkom/custom_socket.py:20 | Reading back the bytes written for a number gives the number, for every number that fits the width. |
| Wire.ToFromBigEndian | TubesJarkom/custom_socket.py:17 | Writing the number read from a byte string gives the same bytes. |
| Wire.FrameLayout | TubesJarkom/custom_socket.py:17 | The frame is 9 + \|data\| bytes. Byte 0 is the flags, bytes 1-4 are `seq` big-endian, bytes 5-8 are `ack` big-endian, and the rest is the data unchanged. |
| Wire.FrameOfFields | TubesJarkom/custom_socket.py:19-22 | Any byte string of 9 bytes or more is the frame of its own header fields and tail. |
| Wire.MakePacket | TubesJarkom/custom_socket.py:16-17 | Packing succeeds exactly when both 4-byte fields are below 2^32; otherwise it is the `struct.pack` error. |
| Wire.MakePacketLayout | TubesJarkom/custom_socket.py:16-17 | A packet that was made has the `!BII` layout: length 9 + \|data\|, flags first, then `seq` and `ack` big-endian, then the data. |
| Wire.WordIsBigEndian | TubesJarkom/custom_socket.py:20 | The unsigned field `unpack` reads from four bytes is their big-endian value. |
| Wire.ParsePacket | TubesJarkom/custom_socket.py:19-22 | Parsing succeeds exactly on 9 bytes or more. The data is everything after byte 9, and both numbers are below 2^32. |
| Wire.MakeParseRoundTrip | TubesJarkom/custom_socket.py:16-22 | Packing the four parsed values gives back exactly the bytes that were parsed. |
| Wire.ParseMakeRoundTrip | TubesJarkom/custom_socket.py:16-22 | `_parse_packet(_make_packet(f, s, a, d)) == (f, s, a, d)` whenever `s` and `a` are below 2^32. |
| Connection.Received | TubesJarkom/custom_socket.py:31 | `recvfrom(1024)` yields a prefix of the datagram: all of it up to 1024 bytes, otherwise exactly 1024 bytes. |
| Connection.Emit | TubesJarkom/custom_socket.py:27-28 | `sendto(_make_packet(...), addr)` sends exactly when the fields fit and a peer is known. A field out of range is reported before a missing address. |
| Connection.EmitParses | TubesJarkom/custom_socket.py:16-22 | A send fails on the field range exactly where `_make_packet` does, and what is sent parses back to the packet that was built. |
| Connection.Scan | TubesJarkom/custom_socket.py:30-35 | The `while True: recvfrom` loops at lines 30, 65, 86 and 97 (and the single reads at lines 43 and 52, which want any packet). It reads datagrams in order until one is too short to unpack or is one the loop wants, and says where it stopped; a stop is always at a datagram of the input. |
| Connection.ScanExplains | TubesJarkom/custom_socket.py:30-35 | A receive loop stops at the first datagram that is too short to unpack or that it wants. Every datagram before that stop parses and is not wanted. |
| Connection.ScanFirst | TubesJarkom/custom_socket.py:65-73 | On the first datagram the loop raises on a short one, stops at a wanted one, or goes round again. |
| Connection.ScanSkipping | TubesJarkom/custom_socket.py:86-88 | A loop that has passed over the first `k` datagrams stops where it would stop on the rest. |
| Connection.ScanAt | TubesJarkom/custom_socket.py:97-100 | After `k` passed datagrams, the next one settles the loop: a short one raises, a wanted one is returned, and the loop consumes exactly up to it. |
| Connection.ScanFinds | TubesJarkom/custom_socket.py:30-35 | When all earlier datagrams pass, the loop returns the first wanted one and leaves the rest unread. |
| Connection.ScanRunsOut | TubesJarkom/custom_socket.py:65-73 | When every datagram passes, the loop reads them all and waits on. |
| Connection.ConnectSpec | TubesJarkom/custom_socket.py:24-40 | Reference semantics of `connect`: peer and `seq` 100 set, SYN(100, 0) sent, then `HandshakeSpec`. |
| Connection.HandshakeSpec | TubesJarkom/custom_socket.py:30-40 | Reference semantics of the reply loop of `connect`: the first reply with SYN or ACK acknowledging `seq + 1`, then `AcknowledgeSpec`. |
| Connection.AcknowledgeSpec | TubesJarkom/custom_socket.py:34-40 | Reference semantics of the end of `connect`: `ack` the reply's `seq + 1`, `seq` one more, ACK sent, connected. |
| Connection.ListenSpec | TubesJarkom/custom_socket.py:42-55 | Reference semantics of `listen`: one datagram; without SYN nothing more happens, with SYN `AnswerSpec`. |
| Connection.AnswerSpec | TubesJarkom/custom_socket.py:46-50 | Reference semantics of the SYN branch of `listen`: adopt the sender, `ack` its `seq + 1`, `seq` 42, send SYN\|ACK, then `ConfirmSpec`. |
| Connection.ConfirmSpec | TubesJarkom/custom_socket.py:52-55 | Reference semantics of the second read of `listen`: connected only if the datagram has ACK and acknowledges `seq + 1`. |
| Connection.SendSpec | TubesJarkom/custom_socket.py:57-62 | Reference semantics of `send`: "Not connected" when not connected, else one ACK with the data and `seq` moved by its length. |
| Connection.ReceiveSpec | TubesJarkom/custom_socket.py:64-73 | Reference semantics of `receive`: the first datagram with FIN or ACK; FIN answers through `ResponseCloseSpec` and gives None, ACK gives the payload and moves `ack`. |
| Connection.ResponseCloseSpec | TubesJarkom/custom_socket.py:115-121 | Reference semantics of `response_close`: FIN\|ACK with `seq` and `ack`, then disconnected. |
| Connection.CloseSpec | TubesJarkom/custom_socket.py:79-113 | Reference semantics of `close`: FIN sent, then `CloseAckSpec`. |
| Connection.CloseAckSpec | TubesJarkom/custom_socket.py:86-105 | Reference semantics of the outer loop of `close`: the first ACK of `seq`; with FIN `ack` becomes its `seq + 1` and `FinishCloseSpec` follows, without FIN `PeerFinSpec`. |
| Connection.PeerFinSpec | TubesJarkom/custom_socket.py:97-104 | Reference semantics of the inner loop of `close`: the first FIN; `ack` becomes its `seq + 1`, then `FinishCloseSpec`. |
| Connection.FinishCloseSpec | TubesJarkom/custom_socket.py:107-112 | Reference semantics of the ACK sent at line 94 or 103 and the final ACK at line 109: the same ACK(seq, ack) twice, then disconnected. |
| Socket.BetterUdpSocket.constructor | TubesJarkom/custom_socket.py:9-14 | No peer, `seq` and `ack` zero, not connected, nothing sent. |
| Socket.BetterUdpSocket.Transmit | TubesJarkom/custom_socket.py:16-17 | Builds the packet and logs it when the fields fit and a peer is known; otherwise it raises and logs nothing. |
| Socket.BetterUdpSocket.Await | TubesJarkom/custom_socket.py:30-35 | The `while True: recvfrom` loop stops where `Scan` says and consumes exactly the datagrams up to that stop. |
| Socket.BetterUdpSocket.Connect | TubesJarkom/custom_socket.py:24-40 | New fields, sent log and outcome are exactly those of `ConnectSpec`. |
| Socket.BetterUdpSocket.Handshake | TubesJarkom/custom_socket.py:30-40 | Exactly `HandshakeSpec`: skip replies until one has SYN or ACK and acknowledges `seq + 1`, then acknowledge it. |
| Socket.BetterUdpSocket.Acknowledge | TubesJarkom/custom_socket.py:34-40 | Exactly `AcknowledgeSpec`: `ack` becomes the peer's `seq + 1`, `seq` steps by one, ACK is sent, connected. |
| Socket.BetterUdpSocket.Listen | TubesJarkom/custom_socket.py:42-55 | Exactly `ListenSpec`. |
| Socket.BetterUdpSocket.Answer | TubesJarkom/custom_socket.py:46-50 | Exactly `AnswerSpec`: adopt the sender, `ack` the peer's `seq + 1`, `seq` 42, send SYN\|ACK, then `Confirm`. |
| Socket.BetterUdpSocket.Confirm | TubesJarkom/custom_socket.py:52-55 | Exactly `ConfirmSpec`: one more datagram; connected only if it has ACK and acknowledges `seq + 1`. |
| Socket.BetterUdpSocket.Send | TubesJarkom/custom_socket.py:57-62 | Exactly `SendSpec`. |
| Socket.BetterUdpSocket.Receive | TubesJarkom/custom_socket.py:64-73 | Exactly `ReceiveSpec`. |
| Socket.BetterUdpSocket.ResponseClose | TubesJarkom/custom_socket.py:115-121 | Exactly `ResponseCloseSpec`: FIN\|ACK with `seq` and `ack` unchanged, then disconnected. |
| Socket.BetterUdpSocket.Close | TubesJarkom/custom_socket.py:79-113 | Exactly `CloseSpec`, so what it sends and its new state on either path are those of `Properties.CloseOnFinAck` and `Properties.CloseOnAckThenFin`. |
| Socket.BetterUdpSocket.AwaitCloseAck | TubesJarkom/custom_socket.py:86-105 | Exactly `CloseAckSpec`: the outer loop waits for an ACK of `seq`, then finishes at once on FIN or waits for one, as `Properties.CloseAckSkips`, `Properties.CloseAckOnFinAck` and `Properties.CloseAckOnAckThenFin` pin down. |
| Socket.BetterUdpSocket.AwaitPeerFin | TubesJarkom/custom_socket.py:97-104 | Exactly `PeerFinSpec`: the inner loop waits for a FIN. |
| Socket.BetterUdpSocket.FinishClose | TubesJarkom/custom_socket.py:107-112 | Exactly `FinishCloseSpec`: the ACK of the peer's FIN, the identical final ACK, then disconnected. |
| Properties.FoundIsLastRead | TubesJarkom/custom_socket.py:30-35 | The packet a loop stops at is the last datagram it read, and the loop wanted it. |
| Properties.ConnectLinks | TubesJarkom/custom_socket.py:24-40 | After `__init__`, and after `connect` from any state, `connected` implies a known peer. |
| Properties.ListenKeepsLinked | TubesJarkom/custom_socket.py:42-55 | `listen` keeps "`connected` implies a known peer". |
| Properties.SendKeepsLinked | TubesJarkom/custom_socket.py:57-62 | `send` keeps "`connected` implies a known peer". |
| Properties.ReceiveKeepsLinked | TubesJarkom/custom_socket.py:64-73 | `receive` keeps "`connected` implies a known peer". |
| Properties.CloseKeepsLinked | TubesJarkom/custom_socket.py:79-113 | `close` keeps "`connected` implies a known peer". |
| Properties.ConnectEstablishes | TubesJarkom/custom_socket.py:24-40 | Past replies lacking both SYN and ACK or not acknowledging 101, the first one with either bit that acknowledges 101 ends `connect` with `seq` 101, `ack` the peer's `seq + 1` and connected. The sent log is exactly `[SYN(100, 0), ACK(101, peerSeq + 1)]`. |
| Properties.ConnectEffect | TubesJarkom/custom_socket.py:24-40 | Whatever arrives, SYN(100, 0) goes first to the given peer. `connect` returns exactly when it has sent two packets, and then it is connected at 101; otherwise `connected` is unchanged. |
| Properties.ConnectBlocks | TubesJarkom/custom_socket.py:30-35 | If no reply qualifies, `connect` reads everything, has sent only the SYN and waits on. |
| Properties.ListenIgnoresNonSyn | TubesJarkom/custom_socket.py:42-45 | A first datagram without SYN is read: nothing is sent and no field changes. |
| Properties.ListenAnswersSyn | TubesJarkom/custom_socket.py:42-52 | Whatever follows a first datagram that is a SYN: `addr` is the sender, `ack` the peer's `seq + 1`, `seq` 42, and exactly SYN\|ACK(42, ack) is sent. With nothing after the SYN, `listen` then waits with no datagram left; with a second datagram too short to unpack it raises; in both cases `connected` is unchanged. |
| Properties.ListenConfirms | TubesJarkom/custom_socket.py:42-55 | With a SYN and a second datagram that parses, `listen` returns with the fields above and the two datagrams read. `connected` is set only if the second datagram has ACK and acknowledges 43; otherwise it is unchanged. |
| Properties.SendEffect | TubesJarkom/custom_socket.py:57-62 | Not connected: raises "Not connected" and nothing changes. Connected: it returns exactly when the fields fit and a peer is known. It then sends one ACK with the old `seq`/`ack` and the data, which parses back, and only `seq` changes, by `len(data)`. A linked endpoint never fails for lack of an address. |
| Properties.ReceiveAnswersFin | TubesJarkom/custom_socket.py:64-70 | A FIN, with or without ACK, after skipped datagrams sends FIN\|ACK(seq, ack), disconnects and returns None. |
| Properties.ReceiveTakesData | TubesJarkom/custom_socket.py:71-73 | An ACK without FIN returns its payload (at most 1015 bytes), sets `ack` to its `seq` + payload length, and sends nothing. |
| Properties.ReceiveEffect | TubesJarkom/custom_socket.py:64-73 | Whatever arrives, `seq` is unchanged. A payload comes from the last datagram read, an ACK without FIN, and moves `ack` as above; None comes after a FIN and leaves the connection dropped. |
| Properties.FinishCloseEffect | TubesJarkom/custom_socket.py:107-112 | Two identical ACK(seq, ack) packets, then disconnected; `seq` and `ack` are unchanged. |
| Properties.PeerFinEffect | TubesJarkom/custom_socket.py:97-104 | On return the last datagram read is a FIN and `ack` is its `seq + 1`, acknowledged twice. The loop only ever consumes a prefix of the input. |
| Properties.CloseAckEffect | TubesJarkom/custom_socket.py:86-105 | On either path, `seq` is unchanged; on return the last datagram read is a FIN and `ack` is its `seq + 1`; two identical ACKs are sent. |
| Properties.CloseEffect | TubesJarkom/custom_socket.py:79-113 | `seq` never changes and the first packet is FIN(seq, ack). On return exactly FIN, ACK, ACK were sent, the connection is dropped and `ack` is the peer FIN's `seq + 1`. |
| Properties.CloseAckSkips | TubesJarkom/custom_socket.py:86-90 | A datagram lacking ACK, or acknowledging anything but `seq`, is read and dropped by the outer loop of `close`, which goes on exactly as on the rest. |
| Properties.PeerFinSkips | TubesJarkom/custom_socket.py:97-100 | A datagram without FIN is read and dropped by the inner loop of `close`, which goes on exactly as on the rest. |
| Properties.PeerFinArrives | TubesJarkom/custom_socket.py:97-112 | Past datagrams without FIN, the first FIN ends the inner loop: `ack` becomes its `seq + 1`, ACK(seq, ack) is sent twice, the connection is dropped and the datagrams after the FIN are left unread. |
| Properties.CloseSendsFin | TubesJarkom/custom_socket.py:81-82 | With a peer and numbers that fit, `close` sends FIN(seq, ack) and continues with its outer loop. |
| Properties.CloseAckOnFinAck | TubesJarkom/custom_socket.py:86-95 | Past dropped datagrams, an ACK of `seq` that also has FIN ends the outer loop: `ack` becomes its `seq + 1`, ACK(seq, ack) is sent twice, disconnected, the rest left unread. |
| Properties.CloseAckWaitsForFin | TubesJarkom/custom_socket.py:90-97 | Past dropped datagrams, an ACK of `seq` without FIN hands the datagrams after it to the inner loop. |
| Properties.CloseAckOnAckThenFin | TubesJarkom/custom_socket.py:86-105 | An ACK of `seq` without FIN, then past datagrams without FIN the peer's FIN: `ack` becomes that FIN's `seq + 1`, ACK(seq, ack) is sent twice, disconnected, the rest after the FIN left unread. |
| Properties.CloseOnFinAck | TubesJarkom/custom_socket.py:79-113 | The four-way close when the peer answers FIN\|ACK: exactly FIN(seq, ack), ACK(seq, peerSeq + 1), ACK(seq, peerSeq + 1) are sent, `seq` is unchanged, `ack` is peerSeq + 1, disconnected, and the datagrams after the FIN\|ACK are left unread. |
| Properties.CloseOnAckThenFin | TubesJarkom/custom_socket.py:79-113 | The four-way close when the peer sends its ACK and its FIN apart: exactly FIN(seq, ack) and twice ACK(seq, finSeq + 1) are sent, `seq` is unchanged, `ack` is finSeq + 1, disconnected, and the datagrams after the FIN are left unread. |
| Exchange.FramePrefix | TubesJarkom/custom_socket.py:17 | The first 9 + k bytes of a frame are the frame of its first k payload bytes. |
| Exchange.Arrives | TubesJarkom/custom_socket.py:31-32 | A sent packet read with `recvfrom(1024)` parses to the same header and to the first 1015 bytes of the payload. |
| Exchange.Delivery | TubesJarkom/custom_socket.py:57-73 | `send` on one end and `receive` on the other: the receiver gets the payload cut to 1015 bytes, and its `ack` becomes the sender's `seq` plus that length. This equals the sender's new `seq` exactly when nothing was cut. |
| Exchange.ClientHandshake | TubesJarkom/custom_socket.py:24-40 | A client whose first reply is the server's SYN\|ACK(42, 101) sends SYN(100, 0) and ACK(101, 43) and connects at 101 acknowledging 43. |
| Exchange.ServerHandshake | TubesJarkom/custom_socket.py:42-55 | A server that reads the client's SYN and then its ACK answers SYN\|ACK(42, 101) and connects at 42 acknowledging 101. |
| Exchange.HandshakeCompletes | TubesJarkom/custom_socket.py:24-55 | With each end reading what the other sends, both connect and each knows the other as its peer. The client's `seq` equals the server's `ack`, and the server's `seq` is one less than the client's `ack`. |

## Left out

- Real sockets: `socket.socket`, a caller-supplied `udp_socket`, `bind`, and the OS errors and timeouts of `sendto` and `recvfrom`. The datagrams `recvfrom` would return are an input sequence, and `sendto` appends to a log. The log holds each datagram as its destination and the packet it was built from; its bytes are `Encode` of that packet.
- Blocking: where the source would wait forever in `recvfrom`, the model ends with `Blocked` once the input is used up.
- `sock.close()` (lines 113 and 121) is modelled only as `connected = false`. The model does not record that the socket is closed, so it does not capture that a later `sendto` on it would fail.
- `print` (lines 111, 117 and 123) is output only.
- Types: the flags argument of `_make_packet` is a byte, because every caller passes a flag constant and so the `struct.pack` error for a flags value of 256 or more cannot occur. Payloads are byte sequences; a `str` passed to `send` would raise `TypeError` in Python, and that is not modelled.
- Concurrency: a listener thread calling `receive` while another thread sends is not modelled.
- `TubesJarkom/gui.py`, `TubesJarkom/server.py` and `TubesJarkom/client.py` are not part of this model. They are UI, audio, threading and demo entry points that only forward to `BetterUDPSocket`.
- Datagram loss, duplication and reordering between two endpoints are not considered in `Exchange`.
- `recvfrom(1024)` is modelled as the POSIX one, which truncates a longer datagram; on Windows it raises instead, and that is not modelled.
- PeerFinEffect: states only what holds once the inner loop of `close` returns; which inputs make it return, and with what, is stated by `PeerFinSkips` and `PeerFinArrives`.
- CloseAckEffect: states only what holds once the outer loop of `close` returns; which inputs make it return, and with what, is stated by `CloseAckSkips`, `CloseAckOnFinAck`, `CloseAckWaitsForFin` and `CloseAckOnAckThenFin`.
- CloseEffect: states only what holds once `close` returns; which inputs make it return, and with what, is stated by `CloseOnFinAck` and `CloseOnAckThenFin`.

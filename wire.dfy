/** The frame codec of BetterUDPSocket: a 9-byte header in network byte order
    (one flags byte, a 4-byte unsigned sequence number, a 4-byte unsigned
    acknowledgment number, the `!BII` layout of Python's struct module)
    followed by the payload, unchanged. */
module Wire {

  /** One octet of a datagram. */
  type Byte = x: int | 0 <= x < 256

  datatype Option<T> = None | Some(value: T)

  /** Flag bits of the header's first byte. */
  const SYN: Byte := 1
  const ACK: Byte := 2
  const FIN: Byte := 4

  function Pow2(n: nat): (r: nat)
    ensures r > 0
  {
    if n == 0 then 1 else 2 * Pow2(n - 1)
  }

  /** The low `n` bits of `a & b`, built from the lowest bit up. */
  function AndBits(a: nat, b: nat, n: nat): (r: nat)
    requires a < Pow2(n) && b < Pow2(n)
    ensures r < Pow2(n)
  {
    if n == 0 then 0
    else 2 * AndBits(a / 2, b / 2, n - 1) + (if a % 2 == 1 && b % 2 == 1 then 1 else 0)
  }

  /** The low `n` bits of `a | b`, built from the lowest bit up. */
  function OrBits(a: nat, b: nat, n: nat): (r: nat)
    requires a < Pow2(n) && b < Pow2(n)
    ensures r < Pow2(n)
  {
    if n == 0 then 0
    else 2 * OrBits(a / 2, b / 2, n - 1) + (if a % 2 == 1 || b % 2 == 1 then 1 else 0)
  }

  /** Nothing survives `& 0`. */
  lemma {:induction false} AndNothing(a: nat, n: nat)
    requires a < Pow2(n)
    ensures AndBits(a, 0, n) == 0
  {
    if n > 0 {
      AndNothing(a / 2, n - 1);
    }
  }

  lemma ByteIsPow2()
    ensures Pow2(8) == 256
  {
    assert Pow2(4) == 16;
  }

  /** Bit `i` of `x`, counting from the least significant: the low bit of
      `x` halved `i` times. */
  predicate Bit(x: nat, i: nat)
  {
    if i == 0 then x % 2 == 1 else Bit(x / 2, i - 1)
  }

  /** Each bit of `AndBits(a, b, n)` is set exactly when it is set in both. */
  lemma {:induction false} AndBitsBit(a: nat, b: nat, n: nat, i: nat)
    requires a < Pow2(n) && b < Pow2(n) && i < n
    ensures Bit(AndBits(a, b, n), i) <==> Bit(a, i) && Bit(b, i)
  {
    if i > 0 {
      AndBitsBit(a / 2, b / 2, n - 1, i - 1);
    }
  }

  /** Each bit of `OrBits(a, b, n)` is set exactly when it is set in either. */
  lemma {:induction false} OrBitsBit(a: nat, b: nat, n: nat, i: nat)
    requires a < Pow2(n) && b < Pow2(n) && i < n
    ensures Bit(OrBits(a, b, n), i) <==> Bit(a, i) || Bit(b, i)
  {
    if i > 0 {
      OrBitsBit(a / 2, b / 2, n - 1, i - 1);
    }
  }

  /** Python's `a & b` on two bytes: each of the eight bits is set exactly
      when it is set in both. */
  function Intersection(a: Byte, b: Byte): (r: Byte)
    ensures forall i :: 0 <= i < 8 ==> (Bit(r, i) <==> Bit(a, i) && Bit(b, i))
  {
    ByteIsPow2();
    forall i | 0 <= i < 8
      ensures Bit(AndBits(a, b, 8), i) <==> Bit(a, i) && Bit(b, i)
    {
      AndBitsBit(a, b, 8, i);
    }
    AndBits(a, b, 8)
  }

  /** Python's `a | b` on two bytes: each of the eight bits is set exactly
      when it is set in either. */
  function Union(a: Byte, b: Byte): (r: Byte)
    ensures forall i :: 0 <= i < 8 ==> (Bit(r, i) <==> Bit(a, i) || Bit(b, i))
  {
    ByteIsPow2();
    forall i | 0 <= i < 8
      ensures Bit(OrBits(a, b, 8), i) <==> Bit(a, i) || Bit(b, i)
    {
      OrBitsBit(a, b, 8, i);
    }
    OrBits(a, b, 8)
  }

  /** Python's truth value of `flags & mask`: some bit of `mask` is set. */
  predicate Carries(flags: Byte, mask: Byte)
  {
    Intersection(flags, mask) != 0
  }

  /** The three flag bits, read one at a time. */
  predicate SynSet(flags: Byte) { flags % 2 == 1 }
  predicate AckSet(flags: Byte) { (flags / 2) % 2 == 1 }
  predicate FinSet(flags: Byte) { (flags / 4) % 2 == 1 }
  /** The SYN bit or the ACK bit, read together as the low two bits. */
  predicate SynOrAckSet(flags: Byte) { flags % 4 != 0 }

  /** Python's `flags & SYN`, `flags & ACK` and `flags & FIN` test one bit
      each, and `flags & (SYN | ACK)` tests the low two bits together: it is
      set when either bit is, and both need not be. */
  lemma FlagTests(f: Byte)
    ensures Carries(f, SYN) <==> SynSet(f)
    ensures Carries(f, ACK) <==> AckSet(f)
    ensures Carries(f, FIN) <==> FinSet(f)
    ensures Carries(f, Union(SYN, ACK)) <==> SynOrAckSet(f)
    ensures SynOrAckSet(f) <==> SynSet(f) || AckSet(f)
  {
    ByteIsPow2();
    AndNothing(f / 2, 7);
    AndNothing(f / 4, 6);
    AndNothing(f / 8, 5);
    assert AndBits(f, 1, 8) == f % 2;
    assert AndBits(f / 2, 1, 7) == (f / 2) % 2;
    assert AndBits(f / 4, 1, 6) == (f / 4) % 2;
    assert AndBits(f / 2, 2, 7) == 2 * AndBits(f / 4, 1, 6);
    assert Union(SYN, ACK) == 3;
  }

  /** The two combined flag bytes the socket sends. */
  lemma CombinedFlags()
    ensures Union(SYN, ACK) == 3 && Union(FIN, ACK) == 6
  {
  }

  /** Size of the `!BII` header. */
  const HEADER_SIZE: nat := 9

  /** struct's `I` field holds values below 2^32. */
  const WORD_LIMIT: nat := 0x1_0000_0000

  /** A parsed frame: the four values `_parse_packet` returns. */
  datatype Packet = Packet(flags: Byte, seqNo: nat, ackNo: nat, data: seq<Byte>)

  function Pow256(n: nat): (r: nat)
    ensures r > 0
  {
    if n == 0 then 1 else 256 * Pow256(n - 1)
  }

  lemma WordLimitIsPow256()
    ensures Pow256(4) == WORD_LIMIT
  {
    assert Pow256(1) == 256;
    assert Pow256(2) == 65536;
  }

  /** `x` written as `width` bytes, most significant first. */
  function ToBigEndian(x: nat, width: nat): (r: seq<Byte>)
    ensures |r| == width
  {
    if width == 0 then [] else ToBigEndian(x / 256, width - 1) + [x % 256]
  }

  /** The unsigned number that the bytes `b` spell, most significant first. */
  function FromBigEndian(b: seq<Byte>): (r: nat)
    ensures r < Pow256(|b|)
  {
    if b == [] then 0 else FromBigEndian(b[..|b| - 1]) * 256 + b[|b| - 1]
  }

  /** Decoding undoes encoding for every value that fits the width. */
  lemma {:induction false} FromToBigEndian(x: nat, width: nat)
    requires x < Pow256(width)
    ensures FromBigEndian(ToBigEndian(x, width)) == x
  {
    if width > 0 {
      assert x / 256 < Pow256(width - 1);
      FromToBigEndian(x / 256, width - 1);
      var b := ToBigEndian(x, width);
      assert b[..|b| - 1] == ToBigEndian(x / 256, width - 1);
    }
  }

  /** Encoding undoes decoding for every byte string. */
  lemma {:induction false} ToFromBigEndian(b: seq<Byte>)
    ensures ToBigEndian(FromBigEndian(b), |b|) == b
  {
    if b != [] {
      var init := b[..|b| - 1];
      ToFromBigEndian(init);
      var x := FromBigEndian(b);
      assert x / 256 == FromBigEndian(init);
      assert x % 256 == b[|b| - 1];
      assert b == init + [b[|b| - 1]];
    }
  }

  /** The bytes of a header and payload, before any range check. */
  function Frame(flags: Byte, seqNo: nat, ackNo: nat, data: seq<Byte>): seq<Byte>
  {
    ToBigEndian(flags, 1) + ToBigEndian(seqNo, 4) + ToBigEndian(ackNo, 4) + data
  }

  /** The header fields of a frame sit where `!BII` puts them. */
  lemma FrameLayout(flags: Byte, seqNo: nat, ackNo: nat, data: seq<Byte>)
    requires seqNo < WORD_LIMIT && ackNo < WORD_LIMIT
    ensures var b := Frame(flags, seqNo, ackNo, data);
      |b| == HEADER_SIZE + |data| &&
      b[0] == flags &&
      FromBigEndian(b[1..5]) == seqNo &&
      FromBigEndian(b[5..9]) == ackNo &&
      b[HEADER_SIZE..] == data
  {
    WordLimitIsPow256();
    FromToBigEndian(seqNo, 4);
    FromToBigEndian(ackNo, 4);
    var b := Frame(flags, seqNo, ackNo, data);
    assert b[1..5] == ToBigEndian(seqNo, 4);
    assert b[5..9] == ToBigEndian(ackNo, 4);
  }

  /** Every byte string of header length or more is the frame of its own fields. */
  lemma FrameOfFields(packet: seq<Byte>)
    requires |packet| >= HEADER_SIZE
    ensures Frame(packet[0], FromBigEndian(packet[1..5]), FromBigEndian(packet[5..9]), packet[HEADER_SIZE..]) == packet
  {
    var s, a := packet[1..5], packet[5..9];
    ToFromBigEndian(s);
    ToFromBigEndian(a);
    assert ToBigEndian(packet[0], 1) == [packet[0]];
    assert packet == [packet[0]] + s + a + packet[HEADER_SIZE..];
  }

  /** `_make_packet`: struct.pack('!BII', flags, seq, ack) + data. struct.pack
      raises when a 4-byte field is out of range; that is the None result.
      (The flags are typed as a byte: every caller passes a flag constant.)
      Where each field lands is `MakePacketLayout`. */
  function MakePacket(flags: Byte, seqNo: nat, ackNo: nat, data: seq<Byte>): (r: Option<seq<Byte>>)
    ensures r.Some? <==> seqNo < WORD_LIMIT && ackNo < WORD_LIMIT
  {
    if seqNo < WORD_LIMIT && ackNo < WORD_LIMIT then Some(Frame(flags, seqNo, ackNo, data)) else None
  }

  /** A made packet is 9 + |data| bytes: the flags, the sequence number and the
      ack number big-endian, then the data unchanged. */
  lemma MakePacketLayout(flags: Byte, seqNo: nat, ackNo: nat, data: seq<Byte>)
    requires seqNo < WORD_LIMIT && ackNo < WORD_LIMIT
    ensures var b := MakePacket(flags, seqNo, ackNo, data).value;
      |b| == HEADER_SIZE + |data| &&
      b[0] == flags &&
      FromBigEndian(b[1..5]) == seqNo &&
      FromBigEndian(b[5..9]) == ackNo &&
      b[HEADER_SIZE..] == data
  {
    FrameLayout(flags, seqNo, ackNo, data);
  }

  /** The 4-byte unsigned number at `b[at..at + 4]`, most significant byte first. */
  function Word(b: seq<Byte>, at: nat): (r: nat)
    requires at + 4 <= |b|
    ensures r < WORD_LIMIT
  {
    (b[at] as int) * 0x100_0000 + (b[at + 1] as int) * 0x1_0000 + (b[at + 2] as int) * 0x100 + b[at + 3]
  }

  /** `Word` is the 4-byte case of `FromBigEndian`. */
  lemma WordIsBigEndian(b: seq<Byte>, at: nat)
    requires at + 4 <= |b|
    ensures Word(b, at) == FromBigEndian(b[at..at + 4])
  {
    var w1, w2, w3, w4 := b[at..at + 1], b[at..at + 2], b[at..at + 3], b[at..at + 4];
    assert w1[..0] == [] && w2[..1] == w1 && w3[..2] == w2 && w4[..3] == w3;
    assert FromBigEndian(w1) == b[at];
    assert FromBigEndian(w2) == (b[at] as int) * 0x100 + b[at + 1];
    assert FromBigEndian(w3) == ((b[at] as int) * 0x100 + b[at + 1]) * 0x100 + b[at + 2];
  }

  /** `_parse_packet`: struct.unpack('!BII', packet[:9]) and packet[9:].
      unpack raises on fewer than 9 bytes; that is the None result. */
  function ParsePacket(packet: seq<Byte>): (r: Option<Packet>)
    ensures r.Some? <==> |packet| >= HEADER_SIZE
    ensures r.Some? ==> r.value.data == packet[HEADER_SIZE..] && r.value.seqNo < WORD_LIMIT && r.value.ackNo < WORD_LIMIT
  {
    if |packet| < HEADER_SIZE then None
    else
      WordLimitIsPow256();
      Some(Packet(packet[0], Word(packet, 1), Word(packet, 5), packet[HEADER_SIZE..]))
  }

  /** Round trip: a parsed packet re-encodes to exactly the bytes it came from. */
  lemma MakeParseRoundTrip(packet: seq<Byte>)
    requires |packet| >= HEADER_SIZE
    ensures var p := ParsePacket(packet).value;
      MakePacket(p.flags, p.seqNo, p.ackNo, p.data) == Some(packet)
  {
    WordIsBigEndian(packet, 1);
    WordIsBigEndian(packet, 5);
    FrameOfFields(packet);
  }

  /** Round trip: parsing a made packet gives back the four values. */
  lemma ParseMakeRoundTrip(flags: Byte, seqNo: nat, ackNo: nat, data: seq<Byte>)
    requires seqNo < WORD_LIMIT && ackNo < WORD_LIMIT
    ensures MakePacket(flags, seqNo, ackNo, data).Some?
    ensures ParsePacket(MakePacket(flags, seqNo, ackNo, data).value) == Some(Packet(flags, seqNo, ackNo, data))
  {
    MakePacketLayout(flags, seqNo, ackNo, data);
    var b := MakePacket(flags, seqNo, ackNo, data).value;
    WordIsBigEndian(b, 1);
    WordIsBigEndian(b, 5);
  }
}

/** ICMPv6 packets. The checksum is left to a parameter; its place and length are not. */
module Icmp {
  import opened Bytes
  import opened Codec
  import opened Store

  datatype Header = Header(
    version: bv8, trafficClass: bv8, flowLabel: bv32, payloadLen: nat, nextHeader: bv8, hopLimit: bv8, src: Address, dst: Address)

  /** The low eight bits of a number. */
  function Low(n: nat): Byte {
    Counter(n % 256)
  }

  function LowBits(n: bv32): Byte {
    (n & 0xff) as Byte
  }

  // ---- reading a header back -----------------------------------------------------

  function Version(r: seq<Byte>): bv8
    requires |r| >= 40
  {
    r[0] >> 4
  }

  function TrafficClass(r: seq<Byte>): bv8
    requires |r| >= 40
  {
    (r[0] << 4) | (r[1] >> 4)
  }

  function FlowLabel(r: seq<Byte>): bv32
    requires |r| >= 40
  {
    ((r[1] & 0xf) as bv32 << 16) | (r[2] as bv32 << 8) | r[3] as bv32
  }

  function PayloadLen(r: seq<Byte>): nat
    requires |r| >= 40
  {
    r[4] as int * 256 + r[5] as int
  }

  lemma LowValue(n: nat)
    ensures Low(n) as int == n % 256
  {
    CounterValue(n % 256);
  }

  lemma TwoDigits(n: nat)
    ensures n / 256 % 256 * 256 + n % 256 == n % 0x1_0000
  {
  }

  lemma LengthReads(n: nat)
    ensures Low(n / 256) as int * 256 + Low(n) as int == n % 0x1_0000
  {
    LowValue(n);
    LowValue(n / 256);
    TwoDigits(n);
  }

  lemma VersionReads(version: bv8, trafficClass: bv8)
    requires version < 16
    ensures ((version << 4) | (trafficClass >> 4)) >> 4 == version
  {
  }

  lemma TrafficClassReads(version: bv8, trafficClass: bv8, top: bv8)
    requires top < 16
    ensures (((version << 4) | (trafficClass >> 4)) << 4) | (((trafficClass << 4) | top) >> 4) == trafficClass
  {
  }

  lemma FlowLabelReads(trafficClass: bv8, flowLabel: bv32)
    requires flowLabel < 0x10_0000
    ensures LowBits(flowLabel >> 16) < 16
    ensures ((((trafficClass << 4) | LowBits(flowLabel >> 16)) & 0xf) as bv32 << 16)
            | (LowBits(flowLabel >> 8) as bv32 << 8) | LowBits(flowLabel) as bv32 == flowLabel
  {
  }

  function FirstEight(h: Header): seq<Byte> {
    [(h.version << 4) | (h.trafficClass >> 4), (h.trafficClass << 4) | LowBits(h.flowLabel >> 16),
     LowBits(h.flowLabel >> 8), LowBits(h.flowLabel), Low(h.payloadLen / 256), Low(h.payloadLen), h.nextHeader, h.hopLimit]
  }

  function HeaderBytes(h: Header): (r: seq<Byte>)
    ensures |r| == 40
  {
    FirstEight(h) + h.src + h.dst
  }

  lemma LengthField(r: seq<Byte>, n: nat)
    requires |r| == 40 && r[4] == Low(n / 256) && r[5] == Low(n)
    ensures PayloadLen(r) == n % 0x1_0000
  {
    LengthReads(n);
  }

  lemma BitFields(r: seq<Byte>, version: bv8, trafficClass: bv8, flowLabel: bv32)
    requires |r| == 40
    requires r[0] == (version << 4) | (trafficClass >> 4) && r[1] == (trafficClass << 4) | LowBits(flowLabel >> 16)
    requires r[2] == LowBits(flowLabel >> 8) && r[3] == LowBits(flowLabel)
    ensures version < 16 ==> Version(r) == version
    ensures flowLabel < 0x10_0000 ==> FlowLabel(r) == flowLabel && TrafficClass(r) == trafficClass
  {
    if version < 16 { VersionReads(version, trafficClass); }
    if flowLabel < 0x10_0000 {
      FlowLabelReads(trafficClass, flowLabel);
      TrafficClassReads(version, trafficClass, LowBits(flowLabel >> 16));
    }
  }

  lemma HeaderParts(r: seq<Byte>, first: seq<Byte>, src: Address, dst: Address)
    requires |first| == 8 && r == first + src + dst
    ensures |r| == 40 && Src(r) == src && Dst(r) == dst
    ensures r[0] == first[0] && r[1] == first[1] && r[2] == first[2] && r[3] == first[3]
    ensures r[4] == first[4] && r[5] == first[5] && r[6] == first[6] && r[7] == first[7]
  {
    assert r[8..24] == src && r[24..40] == dst;
  }

  /** Every field of a header can be read back from its forty bytes, the payload length
      modulo 2^16. */
  lemma NumbersReadBack(h: Header)
    ensures PayloadLen(HeaderBytes(h)) == h.payloadLen % 0x1_0000
    ensures HeaderBytes(h)[6] == h.nextHeader && HeaderBytes(h)[7] == h.hopLimit
    ensures Src(HeaderBytes(h)) == h.src && Dst(HeaderBytes(h)) == h.dst
  {
    HeaderParts(HeaderBytes(h), FirstEight(h), h.src, h.dst);
    LengthField(HeaderBytes(h), h.payloadLen);
  }

  lemma BitFieldsReadBack(h: Header)
    requires h.version < 16 && h.flowLabel < 0x10_0000
    ensures Version(HeaderBytes(h)) == h.version
    ensures TrafficClass(HeaderBytes(h)) == h.trafficClass
    ensures FlowLabel(HeaderBytes(h)) == h.flowLabel
  {
    HeaderParts(HeaderBytes(h), FirstEight(h), h.src, h.dst);
    BitFields(HeaderBytes(h), h.version, h.trafficClass, h.flowLabel);
  }

  lemma OrIntoZero(x: Byte, y: Byte)
    ensures (0 | x) | y == x | y
  {
  }

  /** b[i] |= x; b[i] |= y, on a byte that is still 0. */
  method OrTwice(b: array<Byte>, i: nat, x: Byte, y: Byte)
    requires i < b.Length && b[i] == 0
    modifies b
    ensures b[..] == old(b[..])[i := x | y]
  {
    OrIntoZero(x, y);
    b[i] := b[i] | x;
    b[i] := b[i] | y;
  }

  /** The fields before the addresses. */
  method MarshalFields(h: Header) returns (b: array<Byte>)
    ensures fresh(b) && b.Length == 40 && b[..8] == FirstEight(h)
  {
    b := new Byte[40](_ => 0);
    OrTwice(b, 0, h.version << 4, h.trafficClass >> 4);
    OrTwice(b, 1, h.trafficClass << 4, LowBits(h.flowLabel >> 16));
    b[2], b[3] := LowBits(h.flowLabel >> 8), LowBits(h.flowLabel);
    b[4], b[5] := Low(h.payloadLen / 256), Low(h.payloadLen);
    b[6], b[7] := h.nextHeader, h.hopLimit;
  }

  method HeaderMarshal(h: Header) returns (r: seq<Byte>)
    ensures r == HeaderBytes(h)
  {
    var b := MarshalFields(h);
    var n := CopyInto(b, 8, h.src);
    n := CopyInto(b, 24, h.dst);
    r := b[..];
  }

  // ---- Packet Too Big ------------------------------------------------------------

  /** The one's complement sum over the pseudo-header and the message. */
  type Checksum = (Address, Address, seq<Byte>) -> (Byte, Byte)

  /** Type 2, code 0, checksum, the MTU in four bytes, and as much of the packet as is given
      (section 3.2 of RFC 4443). */
  function PacketTooBig(checksum: Checksum, src: Address, dst: Address, mtu: nat, data: seq<Byte>): (m: seq<Byte>)
    ensures |m| == 8 + |data|
  {
    var rest := [Low(mtu / 0x100_0000), Low(mtu / 0x1_0000), Low(mtu / 0x100), Low(mtu)] + data;
    var c := checksum(src, dst, [2, 0, 0, 0] + rest);
    [2, 0, c.0, c.1] + rest
  }

  const ICMPV6: Byte := 58

  function IcmpHeader(dst: Address, src: Address, message: seq<Byte>): Header {
    Header(6, 0, 0, |message|, ICMPV6, 255, src, dst)
  }

  function IcmpPacket(dst: Address, src: Address, message: seq<Byte>): (p: Packet) {
    HeaderBytes(IcmpHeader(dst, src, message)) + message
  }

  lemma PacketParts(dst: Address, src: Address, message: seq<Byte>)
    ensures var p := IcmpPacket(dst, src, message);
            |p| == 40 + |message| && IsIPv6(p) && Src(p) == src && Dst(p) == dst && p[40..] == message
  {
    var h := IcmpHeader(dst, src, message);
    HeaderParts(HeaderBytes(h), FirstEight(h), src, dst);
    var p := HeaderBytes(h) + message;
    assert Src(p) == Src(HeaderBytes(h)) && Dst(p) == Dst(HeaderBytes(h));
    assert p[0] == FirstEight(h)[0] == 0x60;
  }

  method CreateICMPv6(dst: Address, src: Address, message: seq<Byte>) returns (packet: Packet)
    ensures packet == IcmpPacket(dst, src, message)
    ensures |packet| == 40 + |message| && IsIPv6(packet) && Src(packet) == src && Dst(packet) == dst
    ensures PayloadLen(packet) == |message| % 0x1_0000 && packet[6] == 58 && packet[7] == 255 && packet[40..] == message
  {
    var header := HeaderMarshal(IcmpHeader(dst, src, message));
    var response := new Byte[40 + |message|](_ => 0);
    var n := CopyInto(response, 0, header);
    n := CopyInto(response, 40, message);
    packet := response[..];
    assert packet == header + message;
    PacketParts(dst, src, message);
    IcmpHeaderParts(dst, src, message);
  }

  const QUOTED := 512

  /** The reply to a packet that is larger than the MTU quotes its first 512 bytes and goes from
      its destination to its source. */
  function TooBigReply(checksum: Checksum, mtu: nat, bs: Packet): (p: Packet)
    requires |bs| >= QUOTED
  {
    IcmpPacket(Src(bs), Dst(bs), PacketTooBig(checksum, Dst(bs), Src(bs), mtu, bs[..QUOTED]))
  }

  lemma TooBigReplyFacts(checksum: Checksum, mtu: nat, bs: Packet)
    requires |bs| >= QUOTED
    ensures var p := TooBigReply(checksum, mtu, bs);
            |p| == 560 && IsIPv6(p) && Src(p) == Dst(bs) && Dst(p) == Src(bs) && p[48..] == bs[..QUOTED]
  {
    var m := PacketTooBig(checksum, Dst(bs), Src(bs), mtu, bs[..QUOTED]);
    PacketParts(Src(bs), Dst(bs), m);
    assert TooBigReply(checksum, mtu, bs)[48..] == m[8..] == bs[..QUOTED];
  }

  lemma MessageParts(checksum: Checksum, src: Address, dst: Address, mtu: nat, data: seq<Byte>)
    ensures var m := PacketTooBig(checksum, src, dst, mtu, data);
            && m[0] == 2 && m[1] == 0 && (m[2], m[3]) == checksum(src, dst, [2, 0, 0, 0] + m[4..]) && m[8..] == data
            && m[4] == Low(mtu / 0x100_0000) && m[5] == Low(mtu / 0x1_0000) && m[6] == Low(mtu / 0x100) && m[7] == Low(mtu)
  {
    var m := PacketTooBig(checksum, src, dst, mtu, data);
    assert m[4..] == [Low(mtu / 0x100_0000), Low(mtu / 0x1_0000), Low(mtu / 0x100), Low(mtu)] + data;
  }

  lemma IcmpHeaderParts(dst: Address, src: Address, message: seq<Byte>)
    ensures var p := IcmpPacket(dst, src, message);
            |p| == 40 + |message| && p[0] == 0x60 && PayloadLen(p) == |message| % 0x1_0000 && p[6] == 58 && p[7] == 255 && p[40..] == message
  {
    var h := IcmpHeader(dst, src, message);
    NumbersReadBack(h);
    HeaderParts(HeaderBytes(h), FirstEight(h), src, dst);
    var p, b := IcmpPacket(dst, src, message), HeaderBytes(h);
    assert p[..40] == b && p[40..] == message;
    assert p[0] == b[0] && p[4] == b[4] && p[5] == b[5] && p[6] == b[6] && p[7] == b[7];
  }

  /** The reply is an IPv6 packet with a payload of 520 bytes, next header 58 and hop limit 255; its
      message has type 2, code 0, the checksum over the rest, and the MTU in four bytes. */
  lemma TooBigReplyFields(checksum: Checksum, mtu: nat, bs: Packet, p: Packet)
    requires |bs| >= QUOTED && p == TooBigReply(checksum, mtu, bs)
    ensures |p| == 560 && p[0] == 0x60 && PayloadLen(p) == 520 && p[6] == 58 && p[7] == 255
    ensures p[40] == 2 && p[41] == 0 && (p[42], p[43]) == checksum(Dst(bs), Src(bs), [2, 0, 0, 0] + p[44..])
    ensures p[44] == Low(mtu / 0x100_0000) && p[45] == Low(mtu / 0x1_0000) && p[46] == Low(mtu / 0x100) && p[47] == Low(mtu)
  {
    var m := PacketTooBig(checksum, Dst(bs), Src(bs), mtu, bs[..QUOTED]);
    IcmpHeaderParts(Src(bs), Dst(bs), m);
    Whole(520);
    MessageIn(checksum, Dst(bs), Src(bs), mtu, bs[..QUOTED], p);
  }

  lemma Whole(n: nat)
    requires n < 0x1_0000
    ensures n % 0x1_0000 == n
  {
  }

  lemma MessageIn(checksum: Checksum, src: Address, dst: Address, mtu: nat, data: seq<Byte>, p: Packet)
    requires |p| >= 48 && p[40..] == PacketTooBig(checksum, src, dst, mtu, data)
    ensures p[40] == 2 && p[41] == 0 && (p[42], p[43]) == checksum(src, dst, [2, 0, 0, 0] + p[44..]) && p[48..] == data
    ensures p[44] == Low(mtu / 0x100_0000) && p[45] == Low(mtu / 0x1_0000) && p[46] == Low(mtu / 0x100) && p[47] == Low(mtu)
  {
    MessageParts(checksum, src, dst, mtu, data);
    var m := p[40..];
    assert forall i | 0 <= i < 8 :: p[40 + i] == m[i];
    assert p[44..] == m[4..] && p[48..] == m[8..];
  }

  /** writePC takes the reply exactly when the packet was for us and came from an address in the
      network, so no other oversize packet is ever replied to. */
  lemma TooBigReplyAccepted(checksum: Checksum, id: Identity, mtu: nat, bs: Packet)
    requires |bs| >= QUOTED
    ensures CheckWrite(id, TooBigReply(checksum, mtu, bs)) == None <==>
            (Dst(bs) == id.address || Dst(bs)[..8] == id.subnet) && SlotFor(id.prefix, Src(bs)).Some?
  {
    TooBigReplyFacts(checksum, mtu, bs);
  }
}

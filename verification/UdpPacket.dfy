/** The IPv4/UDP packets that the Android service reads from and writes to its interface. */
module UdpPacket {
  import opened ByteStrings
  import opened InternetChecksum

  type Address = a: Bytes | |a| == 4 witness [0, 0, 0, 0]

  const FAKE_DNS: Address := [10, 0, 0, 2]
  const TUN_ADDRESS: Address := [10, 0, 0, 1]
  const DNS_PORT := 53
  const MIN_DNS_PACKET := 28

  // ----- Reading; None is an index out of bounds

  /** The header length that the first byte announces. */
  function HeaderLength(p: Bytes): nat
    requires p != []
  {
    p[0] % 16 * 4
  }

  function IsDnsQuery(p: Bytes): Option<bool> {
    if |p| < MIN_DNS_PACKET || p[0] / 16 != 4 || p[9] != 17 || p[16..20] != FAKE_DNS then Some(false)
    else
      var port :- LoadU16(p, HeaderLength(p) + 2);
      Some(port == DNS_PORT)
  }

  /** None when nothing follows the two headers. */
  function ExtractDnsPayload(p: Bytes): Option<Bytes>
    requires p != []
  {
    var start := HeaderLength(p) + 8;
    if start >= |p| then None else Some(p[start..])
  }

  function ExtractSourcePort(p: Bytes): Option<nat>
    requires p != []
  {
    LoadU16(p, HeaderLength(p))
  }

  // ----- Writing

  /** The IPv4 header with its checksum field still zero. */
  function HeaderUnchecked(src: Address, dst: Address, payloadSize: nat): (h: Bytes)
    ensures |h| == 20
  {
    [0x45, 0] + U16(28 + payloadSize) + [0, 0, 0x40, 0, 64, 17, 0, 0] + src + dst
  }

  function Header(src: Address, dst: Address, payloadSize: nat): (h: Bytes)
    ensures |h| == 20
  {
    var h := HeaderUnchecked(src, dst, payloadSize);
    Store(h, 10, Checksum(h))
  }

  function UdpHeader(srcPort: nat, dstPort: nat, payloadSize: nat): (h: Bytes)
    ensures |h| == 8
  {
    U16(srcPort) + U16(dstPort) + U16(8 + payloadSize) + [0, 0]
  }

  /** A packet: the two headers and the payload. Lengths and ports are cut to 16 bits. */
  function Packet(src: Address, dst: Address, srcPort: nat, dstPort: nat, payload: Bytes): (p: Bytes)
    ensures |p| == 28 + |payload|
  {
    Header(src, dst, |payload|) + UdpHeader(srcPort, dstPort, |payload|) + payload
  }

  function FixedFields(ipLength: nat): Bytes {
    [0x45, 0, ipLength / 256 % 256, ipLength % 256, 0, 0, 0x40, 0, 64, 17]
  }

  lemma HeaderParts(src: Address, dst: Address, size: nat)
    ensures HeaderUnchecked(src, dst, size) == FixedFields(28 + size) + [0, 0] + src + dst
  {
    assert [0x45, 0] + U16(28 + size) + [0, 0, 0x40, 0, 64, 17, 0, 0] == FixedFields(28 + size) + [0, 0];
  }

  /** The bytes of the header before the checksum. */
  method WriteFixedFields(packet: array<Byte>, ipLength: nat)
    requires packet.Length >= 28
    modifies packet
    ensures packet[..10] == FixedFields(ipLength)
    ensures packet[10..] == old(packet[10..])
  {
    packet[0] := 0x45;
    packet[1] := 0;
    packet[2] := ipLength / 256 % 256;
    packet[3] := ipLength % 256;
    packet[4], packet[5] := 0, 0;
    packet[6] := 0x40;
    packet[7] := 0;
    packet[8] := 64;
    packet[9] := 17;
  }

  /** Overwrite part of an array. */
  method CopyInto(source: Bytes, packet: array<Byte>, at: nat)
    requires at + |source| <= packet.Length
    modifies packet
    ensures packet[..] == old(packet[..at]) + source + old(packet[at + |source|..])
  {
    for i := 0 to |source|
      invariant forall j :: 0 <= j < i ==> packet[at + j] == source[j]
      invariant forall j :: 0 <= j < packet.Length && !(at <= j < at + i) ==> packet[j] == old(packet[j])
    {
      packet[at + i] := source[i];
    }
  }

  method WriteIpHeader(packet: array<Byte>, src: Address, dst: Address)
    requires packet.Length >= 28
    requires forall i :: 0 <= i < packet.Length ==> packet[i] == 0
    modifies packet
    ensures packet[..20] == Header(src, dst, packet.Length - 28)
  {
    WriteFixedFields(packet, packet.Length);
    assert packet[10..][0] == 0 && packet[10..][1] == 0;
    ghost var fixed := packet[..12];
    assert fixed == FixedFields(packet.Length) + [0, 0];
    CopyInto(src, packet, 12);
    assert packet[..16] == fixed + src;
    CopyInto(dst, packet, 16);
    assert packet[..20] == (fixed + src) + dst;
    ghost var h := HeaderUnchecked(src, dst, packet.Length - 28);
    HeaderParts(src, dst, packet.Length - 28);
    assert packet[0..20] == h;
    var c := IpChecksum(packet, 0, 20);
    StoreWord(packet, 10, c);
    assert packet[..20] == Store(h, 10, c);
  }

  method StoreWord(packet: array<Byte>, i: nat, w: nat)
    requires i + 2 <= packet.Length && w < 0x10000
    modifies packet
    ensures packet[..] == Store(old(packet[..]), i, w)
  {
    packet[i] := w / 256;
    packet[i + 1] := w % 256;
  }

  /** The bytes of the UDP header, cut to 16 bits each. */
  method WriteUdpHeader(packet: array<Byte>, srcPort: nat, dstPort: nat, udpLength: nat)
    requires packet.Length >= 28
    modifies packet
    ensures packet[20..28] == U16(srcPort) + U16(dstPort) + U16(udpLength) + [0, 0]
    ensures packet[..20] == old(packet[..20])
  {
    packet[20] := srcPort / 256 % 256;
    packet[21] := srcPort % 256;
    packet[22] := dstPort / 256 % 256;
    packet[23] := dstPort % 256;
    packet[24] := udpLength / 256 % 256;
    packet[25] := udpLength % 256;
    packet[26], packet[27] := 0, 0;
  }

  method BuildIpUdpPacket(src: Address, dst: Address, srcPort: nat, dstPort: nat, payload: Bytes)
    returns (packet: array<Byte>)
    ensures fresh(packet) && packet[..] == Packet(src, dst, srcPort, dstPort, payload)
  {
    var udpLength := 8 + |payload|;
    var ipLength := 20 + udpLength;
    packet := new Byte[ipLength](i => 0);
    WriteIpHeader(packet, src, dst);
    WriteUdpHeader(packet, srcPort, dstPort, udpLength);
    assert packet[..28] == packet[..20] + packet[20..28];
    CopyInto(payload, packet, 28);
  }

  // ----- Reading what was written

  lemma HeaderFields(src: Address, dst: Address, size: nat)
    ensures var h := Header(src, dst, size);
            && h[0] == 0x45 && h[1] == 0 && h[4..10] == [0, 0, 0x40, 0, 64, 17] && h[9] == 17
            && LoadU16(h, 2) == Some((28 + size) % 0x10000)
            && h[12..16] == src && h[16..20] == dst
  {
    var u := HeaderUnchecked(src, dst, size);
    HeaderParts(src, dst, size);
    FieldsOf(u, size, src, dst);
    FieldsKept(u, Header(src, dst, size), Checksum(u));
    LowHalf(28 + size);
  }

  lemma FieldsOf(u: Bytes, size: nat, src: Address, dst: Address)
    requires u == FixedFields(28 + size) + [0, 0] + src + dst
    ensures u[0] == 0x45 && u[1] == 0 && u[4..10] == [0, 0, 0x40, 0, 64, 17] && u[9] == 17 && u[2] == (28 + size) / 256 % 256 && u[3] == (28 + size) % 256
    ensures u[12..16] == src && u[16..20] == dst
  {
  }

  lemma FieldsKept(u: Bytes, h: Bytes, w: nat)
    requires |u| == 20 && w < 0x10000 && h == Store(u, 10, w)
    ensures |h| == 20 && h[..10] == u[..10] && h[12..] == u[12..]
    ensures h[0] == u[0] && h[1] == u[1] && h[4..10] == u[4..10] && h[9] == u[9] && h[2] == u[2] && h[3] == u[3]
    ensures h[12..16] == u[12..16] && h[16..20] == u[16..20]
  {
  }

  /** The checksum of the header verifies. */
  lemma HeaderVerifies(src: Address, dst: Address, size: nat)
    ensures Checksum(Header(src, dst, size)) == 0
  {
    ChecksumVerifies(HeaderUnchecked(src, dst, size), 10);
  }

  lemma U16Loads(s: Bytes, i: nat, n: nat)
    requires i + 2 <= |s| && s[i..i + 2] == U16(n)
    ensures LoadU16(s, i) == Some(n % 0x10000)
  {
    var hi, lo := n / 256 % 256, n % 256;
    assert s[i] == s[i..i + 2][0] == hi && s[i + 1] == s[i..i + 2][1] == lo;
    LowHalf(n);
  }

  lemma LowHalf(n: nat)
    ensures n / 256 % 256 * 256 + n % 256 == n % 0x10000
  {
  }

  lemma PacketParts(src: Address, dst: Address, srcPort: nat, dstPort: nat, payload: Bytes)
    ensures var p := Packet(src, dst, srcPort, dstPort, payload);
            && p[..20] == Header(src, dst, |payload|)
            && p[20..22] == U16(srcPort) && p[22..24] == U16(dstPort)
            && p[24..26] == U16(8 + |payload|) && p[26..28] == [0, 0] && p[28..] == payload
  {
    var u := UdpHeader(srcPort, dstPort, |payload|);
    var p := Packet(src, dst, srcPort, dstPort, payload);
    assert p[20..28] == u;
    assert p[20..22] == u[0..2] && p[22..24] == u[2..4] && p[24..26] == u[4..6];
    assert p[26..28] == u[6..8];
  }

  /** The extractors recover what the packet was built from; the length fields hold the true
      lengths modulo 65536; and the packet counts as a DNS query exactly when it goes to
      port 53 of the fake server. */
  lemma PacketRoundTrip(src: Address, dst: Address, srcPort: nat, dstPort: nat, payload: Bytes)
    ensures var p := Packet(src, dst, srcPort, dstPort, payload);
            && ExtractDnsPayload(p) == (if payload == [] then None else Some(payload))
            && ExtractSourcePort(p) == Some(srcPort % 0x10000)
            && IsDnsQuery(p) == Some(dst == FAKE_DNS && dstPort % 0x10000 == DNS_PORT)
            && LoadU16(p, 2) == Some(|p| % 0x10000)
            && LoadU16(p, 24) == Some((8 + |payload|) % 0x10000)
            && Checksum(p[..20]) == 0
  {
    var p := Packet(src, dst, srcPort, dstPort, payload);
    PacketParts(src, dst, srcPort, dstPort, payload);
    HeaderFields(src, dst, |payload|);
    HeaderVerifies(src, dst, |payload|);
    assert forall i :: 0 <= i < 20 ==> p[i] == p[..20][i];
    assert p[16..20] == p[..20][16..20];
    U16Loads(p, 20, srcPort);
    U16Loads(p, 22, dstPort);
    U16Loads(p, 24, 8 + |payload|);
    assert HeaderLength(p) == 20;
  }

  /** Both length fields are the true lengths exactly when the payload fits an IPv4 packet. */
  lemma LengthsTrueIff(src: Address, dst: Address, srcPort: nat, dstPort: nat, payload: Bytes)
    ensures var p := Packet(src, dst, srcPort, dstPort, payload);
            LoadU16(p, 2) == Some(|p|) && LoadU16(p, 24) == Some(8 + |payload|) <==> |payload| <= 65507
  {
    PacketRoundTrip(src, dst, srcPort, dstPort, payload);
    CutLengths(Packet(src, dst, srcPort, dstPort, payload), |payload|);
  }

  lemma CutLengths(p: Bytes, size: nat)
    requires |p| == 28 + size
    requires LoadU16(p, 2) == Some(|p| % 0x10000) && LoadU16(p, 24) == Some((8 + size) % 0x10000)
    ensures LoadU16(p, 2) == Some(|p|) && LoadU16(p, 24) == Some(8 + size) <==> size <= 65507
  {
  }
}

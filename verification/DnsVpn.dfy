/** The path of one packet through the Android service, from the interface and back. */
module DnsVpn {
  import opened ByteStrings
  import opened BlocklistKeys
  import opened DnsText
  import opened DnsQuery
  import opened UdpPacket

  /** What happens to a packet: bytes are written back, or an index error is thrown. */
  datatype Outcome = Written(packet: Bytes) | Thrown

  /** The upstream server's answer to a query, if any. */
  type Upstream = Bytes -> Option<Bytes>

  /** The reply to a DNS payload; the outer None is an exception, the inner one no reply. */
  function HandleDnsQuery(dns: Bytes, blocked: set<Text>, upstream: Upstream): Option<Option<Bytes>> {
    match QueryDomain(dns)
    case None => Some(None)
    case Some(domain) =>
      if IsBlocked(domain, blocked) then
        var reply :- BlockedResponse(dns);
        Some(Some(reply))
      else
        Some(upstream(dns))
  }

  /** One round of the packet loop on a packet that was read. */
  function ProcessPacket(p: Bytes, blocked: set<Text>, upstream: Upstream): Outcome
    requires p != []
  {
    match IsDnsQuery(p)
    case None => Thrown
    case Some(false) => Written(p)
    case Some(true) =>
      match ExtractDnsPayload(p)
      case None => Written(p)
      case Some(dns) =>
        match HandleDnsQuery(dns, blocked, upstream)
        case None => Thrown
        case Some(None) => Written(p)
        case Some(Some(reply)) =>
          match ExtractSourcePort(p)
          case None => Thrown
          case Some(port) => Written(Packet(FAKE_DNS, TUN_ADDRESS, DNS_PORT, port, reply))
  }

  method Process(p: Bytes, blocked: set<Text>, upstream: Upstream) returns (r: Outcome)
    requires p != []
    ensures r == ProcessPacket(p, blocked, upstream)
  {
    var isQuery := IsDnsQuery(p);
    if isQuery.None? {
      return Thrown;
    }
    if isQuery.value {
      var dns := ExtractDnsPayload(p);
      if dns.Some? {
        var domain := ParseDnsQueryDomain(dns.value);
        var reply: Option<Bytes> := None;
        if domain.Some? {
          if IsBlocked(domain.value, blocked) {
            reply := BuildBlockedDnsResponse(dns.value);
            if reply.None? {
              return Thrown;
            }
          } else {
            reply := upstream(dns.value);
          }
        }
        if reply.Some? {
          var port := ExtractSourcePort(p);
          if port.None? {
            return Thrown;
          }
          var packet := BuildIpUdpPacket(FAKE_DNS, TUN_ADDRESS, DNS_PORT, port.value, reply.value);
          return Written(packet[..]);
        }
      }
    }
    return Written(p);
  }

  /** What a reply, or its absence, leads to. */
  function Answered(p: Bytes, port: nat, reply: Option<Option<Bytes>>): Outcome {
    match reply
    case None => Thrown
    case Some(None) => Written(p)
    case Some(Some(r)) => Written(Packet(FAKE_DNS, TUN_ADDRESS, DNS_PORT, port, r))
  }

  lemma QueryProcessed(p: Bytes, dns: Bytes, port: nat, blocked: set<Text>, upstream: Upstream)
    requires p != [] && IsDnsQuery(p) == Some(true)
    requires ExtractDnsPayload(p) == Some(dns) && ExtractSourcePort(p) == Some(port)
    ensures ProcessPacket(p, blocked, upstream) == Answered(p, port, HandleDnsQuery(dns, blocked, upstream))
  {
  }

  // ----- Datagrams with any legal IPv4 header

  /** An IPv4 header, with options or without, of a UDP datagram to this address. */
  predicate IsUdpHeader(ip: Bytes, dst: Address) {
    |ip| >= 20 && ip[0] / 16 == 4 && |ip| == ip[0] % 16 * 4 && ip[9] == 17 && ip[16..20] == dst
  }

  /** The rest holds the length and the checksum, which nothing looks at. */
  function Datagram(ip: Bytes, srcPort: nat, dstPort: nat, rest: Bytes, payload: Bytes): Bytes {
    ip + (U16(srcPort) + (U16(dstPort) + (rest + payload)))
  }

  lemma DatagramLayout(p: Bytes, ip: Bytes, srcPort: nat, dstPort: nat, rest: Bytes, payload: Bytes)
    requires p == Datagram(ip, srcPort, dstPort, rest, payload)
    requires |rest| == 4 && srcPort < 0x10000 && dstPort < 0x10000
    ensures |p| == |ip| + 8 + |payload| && p[..|ip|] == ip && p[|ip| + 8..] == payload
    ensures LoadU16(p, |ip|) == Some(srcPort) && LoadU16(p, |ip| + 2) == Some(dstPort)
  {
    var tail := rest + payload;
    var fromDst := U16(dstPort) + tail;
    var fromSrc := U16(srcPort) + fromDst;
    EndsWhole(p, ip + fromSrc);
    PrefixOfConcat(ip, fromSrc);
    var next := EndsSplit(p, 0, ip, fromSrc);
    PortsAt(p, next, srcPort, dstPort, fromSrc, fromDst, tail);
    next := EndsSplit(p, next + 4, rest, payload);
    EndsSlice(p, next, payload);
  }

  lemma PortsAt(p: Bytes, off: nat, srcPort: nat, dstPort: nat, fromSrc: Bytes, fromDst: Bytes, tail: Bytes)
    requires fromDst == U16(dstPort) + tail && fromSrc == U16(srcPort) + fromDst && Ends(p, off, fromSrc)
    requires srcPort < 0x10000 && dstPort < 0x10000
    ensures LoadU16(p, off) == Some(srcPort) && LoadU16(p, off + 2) == Some(dstPort) && Ends(p, off + 4, tail)
  {
    var next := EndsU16(p, off, srcPort, fromDst);
    next := EndsU16(p, next, dstPort, tail);
  }

  lemma EndsWhole(p: Bytes, x: Bytes)
    requires p == x
    ensures Ends(p, 0, x)
  {
  }

  lemma EndsSlice(p: Bytes, off: nat, x: Bytes)
    requires Ends(p, off, x)
    ensures p[off..] == x
  {
  }

  lemma DatagramParts(p: Bytes, ip: Bytes, dst: Address, srcPort: nat, dstPort: nat, payload: Bytes)
    requires IsUdpHeader(ip, dst) && |p| == |ip| + 8 + |payload| && p[..|ip|] == ip && p[|ip| + 8..] == payload
    requires LoadU16(p, |ip|) == Some(srcPort) && LoadU16(p, |ip| + 2) == Some(dstPort)
    ensures IsDnsQuery(p) == Some(dst == FAKE_DNS && dstPort == DNS_PORT)
    ensures ExtractDnsPayload(p) == (if payload == [] then None else Some(payload))
    ensures ExtractSourcePort(p) == Some(srcPort)
  {
    assert p[0] == ip[0] && p[9] == ip[9] && p[16..20] == ip[16..20];
  }

  /** A client's query datagram is taken apart into its payload and its source port. */
  lemma ClientDatagram(ip: Bytes, port: nat, rest: Bytes, dns: Bytes, blocked: set<Text>, upstream: Upstream)
    requires IsUdpHeader(ip, FAKE_DNS) && |rest| == 4 && port < 0x10000 && dns != []
    ensures var p := Datagram(ip, port, DNS_PORT, rest, dns);
            ProcessPacket(p, blocked, upstream) == Answered(p, port, HandleDnsQuery(dns, blocked, upstream))
  {
    var p := Datagram(ip, port, DNS_PORT, rest, dns);
    DatagramLayout(p, ip, port, DNS_PORT, rest, dns);
    DatagramParts(p, ip, FAKE_DNS, port, DNS_PORT, dns);
    QueryProcessed(p, dns, port, blocked, upstream);
  }

  /** A query for a blocked name, in any datagram to port 53 of the fake server, is answered
      from that port of the fake server to the datagram's source port at the interface's
      address, with the question and the 127.0.0.1 record. */
  lemma BlockedQueryAnswered(ip: Bytes, port: nat, udpRest: Bytes, header: Bytes, labels: seq<Bytes>, question: Bytes,
                             rest: Bytes, blocked: set<Text>, upstream: Upstream)
    requires IsUdpHeader(ip, FAKE_DNS) && |udpRest| == 4 && port < 0x10000
    requires |header| == DNS_HEADER && AreLabels(labels) && |question| == 4
    requires IsBlocked(Lowercase(Join(labels)), blocked)
    ensures var p := Datagram(ip, port, DNS_PORT, udpRest, Query(header, labels, question + rest));
            ProcessPacket(p, blocked, upstream) ==
            Written(Packet([10, 0, 0, 2], [10, 0, 0, 1], 53, port,
                           Query(header, labels, question) + [192, 12, 0, 1, 0, 1, 0, 0, 0, 1, 0, 4, 127, 0, 0, 1]))
  {
    QueryDomainRoundTrip(header, labels, question + rest);
    BlockedResponseLayout(header, labels, question, rest);
    ClientDatagram(ip, port, udpRest, Query(header, labels, question + rest), blocked, upstream);
  }

  /** A query for any other name gets what the upstream server answered. */
  lemma OtherQueryForwarded(ip: Bytes, port: nat, udpRest: Bytes, header: Bytes, labels: seq<Bytes>, rest: Bytes,
                            blocked: set<Text>, upstream: Upstream)
    requires IsUdpHeader(ip, FAKE_DNS) && |udpRest| == 4 && port < 0x10000
    requires |header| == DNS_HEADER && AreLabels(labels)
    requires !IsBlocked(Lowercase(Join(labels)), blocked)
    ensures var query := Query(header, labels, rest);
            var p := Datagram(ip, port, DNS_PORT, udpRest, query);
            ProcessPacket(p, blocked, upstream) == Answered(p, port, Some(upstream(query)))
  {
    QueryDomainRoundTrip(header, labels, rest);
    ClientDatagram(ip, port, udpRest, Query(header, labels, rest), blocked, upstream);
  }

  /** The packet is a datagram to port 53 of the fake server. */
  ghost predicate IsQueryDatagram(p: Bytes) {
    exists ip: Bytes, port: nat, rest: Bytes, payload: Bytes ::
      IsUdpHeader(ip, FAKE_DNS) && port < 0x10000 && |rest| == 4 && p == Datagram(ip, port, DNS_PORT, rest, payload)
  }

  lemma U16OfLoad(p: Bytes, off: nat, n: nat)
    requires LoadU16(p, off) == Some(n)
    ensures n < 0x10000 && off + 2 <= |p| && p[off..off + 2] == U16(n)
  {
  }

  /** What the reader takes for a query, with a whole UDP header, is such a datagram. */
  lemma TakenIsDatagram(p: Bytes)
    requires IsDnsQuery(p) == Some(true) && 20 <= HeaderLength(p) && HeaderLength(p) + 8 <= |p|
    ensures IsQueryDatagram(p)
  {
    var n := HeaderLength(p);
    var ip, rest, payload := p[..n], p[n + 4..n + 8], p[n + 8..];
    var port := LoadU16(p, n).value;
    U16OfLoad(p, n, port);
    U16OfLoad(p, n + 2, DNS_PORT);
    assert p[16..20] == ip[16..20];
    assert IsUdpHeader(ip, FAKE_DNS);
    assert p == ip + (p[n..n + 2] + (p[n + 2..n + 4] + (rest + payload)));
    assert p == Datagram(ip, port, DNS_PORT, rest, payload);
  }

  lemma DatagramHeader(p: Bytes)
    requires IsQueryDatagram(p)
    ensures p != [] && HeaderLength(p) >= 20
  {
    var ip: Bytes, port: nat, rest: Bytes, payload: Bytes :|
      IsUdpHeader(ip, FAKE_DNS) && port < 0x10000 && |rest| == 4 && p == Datagram(ip, port, DNS_PORT, rest, payload);
    assert p[0] == ip[0];
  }

  // ----- Other traffic

  /** The packet is for the fake server, but its header is said to reach beyond its end. */
  predicate HeaderOverruns(p: Bytes) {
    && |p| >= MIN_DNS_PACKET && p[0] / 16 == 4 && p[9] == 17 && p[16..20] == FAKE_DNS
    && HeaderLength(p) + 4 > |p|
  }

  /** The header is said to be shorter than a header is, the word where the port is looked for
      is 53, and what comes after reads as a question. */
  predicate ShortHeaderQuery(p: Bytes) {
    && |p| >= MIN_DNS_PACKET && p[0] / 16 == 4 && p[9] == 17 && p[16..20] == FAKE_DNS
    && HeaderLength(p) < 20
    && LoadU16(p, HeaderLength(p) + 2) == Some(DNS_PORT)
    && QueryDomain(p[HeaderLength(p) + 8..]).Some?
  }

  ghost predicate AlwaysUnchanged(p: Bytes)
    requires p != []
  {
    forall blocked: set<Text>, upstream: Upstream :: ProcessPacket(p, blocked, upstream) == Written(p)
  }

  lemma OtherPacketUnchanged(p: Bytes, blocked: set<Text>, upstream: Upstream)
    requires p != [] && !IsQueryDatagram(p) && !HeaderOverruns(p) && !ShortHeaderQuery(p)
    ensures ProcessPacket(p, blocked, upstream) == Written(p)
  {
    if IsDnsQuery(p) == Some(true) && 20 <= HeaderLength(p) && HeaderLength(p) + 8 <= |p| {
      TakenIsDatagram(p);
    }
  }

  /** An upstream server that answers every query with nothing. */
  function Silent(query: Bytes): Option<Bytes> {
    Some([])
  }

  /** Such a packet is answered: the reply starts with a header of 20 bytes, the packet does not. */
  lemma ShortHeaderAnswered(p: Bytes)
    requires ShortHeaderQuery(p)
    ensures ProcessPacket(p, {}, Silent) != Written(p)
  {
    var n := HeaderLength(p);
    var dns, port := p[n + 8..], LoadU16(p, n).value;
    QueryProcessed(p, dns, port, {}, Silent);
    assert HandleDnsQuery(dns, {}, Silent) == Some(Some([]));
    var reply := Packet(FAKE_DNS, TUN_ADDRESS, DNS_PORT, port, []);
    PacketParts(FAKE_DNS, TUN_ADDRESS, DNS_PORT, port, []);
    HeaderFields(FAKE_DNS, TUN_ADDRESS, 0);
    assert reply[0] == reply[..20][0] == 0x45;
    assert p[0] != 0x45;
  }

  /** A packet that is no datagram to port 53 of the fake server goes back unchanged, whatever
      is blocked and whatever the upstream server says, exactly when it is of neither kind. */
  lemma OtherTrafficUnchangedIff(p: Bytes)
    requires p != [] && !IsQueryDatagram(p)
    ensures AlwaysUnchanged(p) <==> !HeaderOverruns(p) && !ShortHeaderQuery(p)
  {
    if HeaderOverruns(p) {
      assert ProcessPacket(p, {}, Silent) == Thrown;
    } else if ShortHeaderQuery(p) {
      ShortHeaderAnswered(p);
    } else {
      forall blocked: set<Text>, upstream: Upstream
        ensures ProcessPacket(p, blocked, upstream) == Written(p)
      {
        OtherPacketUnchanged(p, blocked, upstream);
      }
    }
  }

  function ShortHeaderPacket(): (p: Bytes)
    ensures |p| == 53
  {
    [0x40, 0, 0, 53] + Zeros(5) + [17] + Zeros(6) + FAKE_DNS + Zeros(33)
  }

  /** A packet with a header length of zero: its total length of 53 is taken for the port, and
      it does not come back. */
  lemma ShortHeaderTaken()
    ensures var p := ShortHeaderPacket();
            !IsQueryDatagram(p) && ShortHeaderQuery(p) && ProcessPacket(p, {}, Silent) != Written(p)
  {
    var p := ShortHeaderPacket();
    assert p[0] == 0x40 && p[9] == 17 && p[16..20] == FAKE_DNS;
    assert p[2] == 0 && p[3] == 53;
    var dns := p[8..];
    assert dns[DNS_HEADER] == p[20] == 0;
    assert NameFrom(dns, DNS_HEADER, []) == Some([]);
    ShortHeaderAnswered(p);
    if IsQueryDatagram(p) {
      DatagramHeader(p);
    }
  }

  // ----- When the loop dies

  /** The packet carries a query for a blocked name that ends before its question does. */
  predicate BlockedQuestionCut(p: Bytes, blocked: set<Text>)
    requires p != []
  {
    && IsDnsQuery(p) == Some(true) && ExtractDnsPayload(p).Some?
    && var dns := ExtractDnsPayload(p).value;
       && QueryDomain(dns).Some? && IsBlocked(QueryDomain(dns).value, blocked)
       && ScanName(dns, DNS_HEADER) + 5 > |dns|
  }

  /** The loop goes on after every packet but those of exactly two kinds. */
  lemma ThrowsIff(p: Bytes, blocked: set<Text>, upstream: Upstream)
    requires p != []
    ensures ProcessPacket(p, blocked, upstream) == Thrown <==> HeaderOverruns(p) || BlockedQuestionCut(p, blocked)
  {
  }
}

/** What a resolver reads in the reply to a blocked query. */
module DnsAnswer {
  import opened ByteStrings
  import opened DnsText
  import opened DnsQuery
  import opened InternetChecksum
  import opened UdpPacket
  import opened DnsVpn

  // ----- Names with compression: section 4.1.4 of RFC 1035

  /** The labels of a name, and where the message goes on after it. */
  datatype Named = Named(labels: seq<Bytes>, next: nat)

  /** The name at off. A length byte from 192 on is a pointer, and it points before the limit;
      those from 64 to 191 are reserved. */
  function ReadName(m: Bytes, off: nat, limit: nat): Option<Named>
    decreases limit, |m| - off
  {
    if off >= |m| then None
    else if m[off] == 0 then Some(Named([], off + 1))
    else if m[off] >= 192 then
      var word :- LoadU16(m, off);
      var target := word - 192 * 256;
      if target >= limit then None
      else
        var name :- ReadName(m, target, target);
        Some(Named(name.labels, off + 2))
    else if m[off] >= 64 then None
    else
      var next := off + 1 + m[off];
      if next > |m| then None
      else
        var name :- ReadName(m, next, limit);
        Some(Named([m[off + 1..next]] + name.labels, name.next))
  }

  /** Section 2.3.4 of RFC 1035: a label has at most 63 octets. */
  predicate ShortLabels(labels: seq<Bytes>) {
    forall i :: 0 <= i < |labels| ==> 0 < |labels[i]| <= 63
  }

  lemma {:induction false} ReadLabelsAreShort(m: Bytes, off: nat, limit: nat)
    ensures ReadName(m, off, limit).Some? ==> ShortLabels(ReadName(m, off, limit).value.labels)
    decreases limit, |m| - off
  {
    if off < |m| && m[off] != 0 {
      if m[off] >= 192 {
        var word := LoadU16(m, off);
        if word.Some? && word.value - 192 * 256 < limit {
          ReadLabelsAreShort(m, word.value - 192 * 256, word.value - 192 * 256);
        }
      } else if m[off] < 64 && off + 1 + m[off] <= |m| {
        ReadLabelsAreShort(m, off + 1 + m[off], limit);
      }
    }
  }

  lemma NameOn(m: Bytes, off: nat, limit: nat, first: Bytes, next: nat, name: Named)
    requires 0 < |first| <= 63 && off < |m| && m[off] == |first| && next == off + 1 + |first| <= |m|
    requires m[off + 1..next] == first && ReadName(m, next, limit) == Some(name)
    ensures ReadName(m, off, limit) == Some(Named([first] + name.labels, name.next))
  {
  }

  /** An encoded name is read as its labels. */
  lemma {:induction false} EncodedNameRead(m: Bytes, off: nat, limit: nat, labels: seq<Bytes>, rest: Bytes)
    requires AreLabels(labels) && ShortLabels(labels) && Ends(m, off, PutLabels(labels, rest))
    ensures ReadName(m, off, limit) == Some(Named(labels, off + NameSize(labels)))
    ensures Ends(m, off + NameSize(labels), rest)
    decreases |labels|
  {
    if labels == [] {
      EndsByte(m, off, [0] + rest, 0);
      var next := EndsSplit(m, off, [0], rest);
    } else {
      var first, more := labels[0], labels[1..];
      assert IsLabel(first) && 0 < |first| <= 63;
      var next := LabelAt(m, off, first, PutLabels(more, rest));
      EncodedNameRead(m, next, limit, more, rest);
      NameOn(m, off, limit, first, next, Named(more, next + NameSize(more)));
      assert [first] + more == labels;
    }
  }

  // ----- Resource records: section 4.1.3 of RFC 1035

  datatype Record = Record(owner: seq<Bytes>, rrType: nat, rrClass: nat, ttl: nat, data: Bytes, next: nat)

  function ReadRecord(m: Bytes, off: nat): Option<Record> {
    var name :- ReadName(m, off, off);
    var rrType :- LoadU16(m, name.next);
    var rrClass :- LoadU16(m, name.next + 2);
    var high :- LoadU16(m, name.next + 4);
    var low :- LoadU16(m, name.next + 6);
    var len :- LoadU16(m, name.next + 8);
    var start := name.next + 10;
    if start + len > |m| then None
    else Some(Record(name.labels, rrType, rrClass, high * 65536 + low, m[start..start + len], start + len))
  }

  lemma RecordRead(m: Bytes, off: nat, name: Named, len: nat, data: Bytes)
    requires ReadName(m, off, off) == Some(name)
    requires LoadU16(m, name.next) == Some(1) && LoadU16(m, name.next + 2) == Some(1)
    requires LoadU16(m, name.next + 4) == Some(0) && LoadU16(m, name.next + 6) == Some(1)
    requires LoadU16(m, name.next + 8) == Some(len) && name.next + 10 + len <= |m|
    requires data == m[name.next + 10..name.next + 10 + len]
    ensures ReadRecord(m, off) == Some(Record(name.labels, 1, 1, 1, data, name.next + 10 + len))
  {
  }

  lemma PointerRead(m: Bytes, off: nat, labels: seq<Bytes>, next: nat)
    requires 12 < off && off + 2 <= |m| && m[off] == 192 && m[off + 1] == 12
    requires ReadName(m, 12, 12) == Some(Named(labels, next))
    ensures ReadName(m, off, off) == Some(Named(labels, off + 2))
  {
    assert LoadU16(m, off) == Some(192 * 256 + 12);
  }

  /** The sixteen bytes of an answer record, as they stand in the message. */
  lemma PointerRecordRead(m: Bytes, off: nat, bytes: Bytes, labels: seq<Bytes>, next: nat)
    requires off + 16 == |m| && 12 < off && ReadName(m, 12, 12) == Some(Named(labels, next))
    requires bytes == m[off..] == [192, 12, 0, 1, 0, 1, 0, 0, 0, 1, 0, 4, 127, 0, 0, 1]
    ensures ReadRecord(m, off) == Some(Record(labels, 1, 1, 1, [127, 0, 0, 1], |m|))
  {
    assert m[off] == bytes[0] && m[off + 1] == bytes[1];
    PointerRead(m, off, labels, next);
    AnswerWords(m, off, bytes);
    RecordRead(m, off, Named(labels, off + 2), 4, [127, 0, 0, 1]);
  }

  lemma AnswerWords(m: Bytes, off: nat, bytes: Bytes)
    requires off + 16 == |m| && bytes == m[off..] == [192, 12, 0, 1, 0, 1, 0, 0, 0, 1, 0, 4, 127, 0, 0, 1]
    ensures LoadU16(m, off + 2) == Some(1) && LoadU16(m, off + 4) == Some(1)
    ensures LoadU16(m, off + 6) == Some(0) && LoadU16(m, off + 8) == Some(1) && LoadU16(m, off + 10) == Some(4)
    ensures m[off + 12..off + 16] == [127, 0, 0, 1]
  {
    assert m[off + 2] == bytes[2] && m[off + 3] == bytes[3] && m[off + 4] == bytes[4] && m[off + 5] == bytes[5];
    assert m[off + 6] == bytes[6] && m[off + 7] == bytes[7] && m[off + 8] == bytes[8] && m[off + 9] == bytes[9];
    assert m[off + 10] == bytes[10] && m[off + 11] == bytes[11];
    assert m[off + 12..off + 16] == bytes[12..16];
  }

  // ----- The reply

  /** The first answer of a message with one question: what comes after its name, type and class. */
  function ReadAnswer(m: Bytes): Option<Record> {
    var name :- ReadName(m, 12, 12);
    ReadRecord(m, name.next + 4)
  }

  /** The reply to an encoded query says that the name of the question has the address 127.0.0.1,
      exactly when the labels of the question are of legal length. */
  lemma BlockedAnswerIff(header: Bytes, labels: seq<Bytes>, question: Bytes, rest: Bytes)
    requires |header| == 12 && AreLabels(labels) && |question| == 4
    ensures var reply := BlockedResponse(Query(header, labels, question + rest));
            && reply.Some?
            && (ReadAnswer(reply.value) == Some(Record(labels, 1, 1, 1, [127, 0, 0, 1], |reply.value|)) <==>
                ShortLabels(labels))
  {
    BlockedResponseLayout(header, labels, question, rest);
    var m := Query(header, labels, question) + ANSWER;
    if ShortLabels(labels) {
      BlockedAnswerRead(m, header, labels, question);
    } else if ReadAnswer(m).Some? {
      var name := ReadName(m, 12, 12).value;
      ReadLabelsAreShort(m, name.next + 4, name.next + 4);
    }
  }

  lemma BlockedAnswerRead(m: Bytes, header: Bytes, labels: seq<Bytes>, question: Bytes)
    requires |header| == 12 && AreLabels(labels) && |question| == 4 && ShortLabels(labels)
    requires m == Query(header, labels, question) + ANSWER
    ensures ReadAnswer(m) == Some(Record(labels, 1, 1, 1, [127, 0, 0, 1], |m|))
  {
    QueryConcat(header, labels, question, ANSWER);
    QueryEnds(header, labels, question + ANSWER);
    EncodedNameRead(m, 12, 12, labels, question + ANSWER);
    var next := 12 + NameSize(labels);
    assert m[next + 4..] == ANSWER;
    PointerRecordRead(m, next + 4, ANSWER, labels, next);
  }

  // ----- The packet around it

  /** The fields of a packet, at the places of section 3.1 of RFC 791 and of RFC 768: one whole
      datagram that is not to be fragmented, with a time to live of 64 and no UDP checksum. */
  lemma PacketFields(src: Address, dst: Address, srcPort: nat, dstPort: nat, payload: Bytes, r: Bytes)
    requires r == Packet(src, dst, srcPort, dstPort, payload) && srcPort < 0x10000 && dstPort < 0x10000
    ensures |r| == 28 + |payload| && r[..2] == [0x45, 0] && r[4..10] == [0, 0, 0x40, 0, 64, 17]
    ensures LoadU16(r, 2) == Some(|r| % 0x10000) && Checksum(r[..20]) == 0
    ensures r[12..16] == src && r[16..20] == dst
    ensures LoadU16(r, 20) == Some(srcPort) && LoadU16(r, 22) == Some(dstPort)
    ensures LoadU16(r, 24) == Some((8 + |payload|) % 0x10000) && r[26..28] == [0, 0] && r[28..] == payload
  {
    PacketParts(src, dst, srcPort, dstPort, payload);
    HeaderIn(r, Header(src, dst, |payload|), |payload|, src, dst);
    U16Loads(r, 20, srcPort);
    U16Loads(r, 22, dstPort);
    U16Loads(r, 24, 8 + |payload|);
  }

  /** Every packet that answers a query comes from port 53 of 10.0.0.2 and goes to 10.0.0.1. */
  lemma ReplyPacket(port: nat, reply: Bytes, r: Bytes)
    requires r == Packet(FAKE_DNS, TUN_ADDRESS, DNS_PORT, port, reply) && port < 0x10000
    ensures |r| == 28 + |reply| && Checksum(r[..20]) == 0
    ensures r[12..16] == [10, 0, 0, 2] && r[16..20] == [10, 0, 0, 1]
    ensures LoadU16(r, 20) == Some(53) && LoadU16(r, 22) == Some(port) && r[28..] == reply
  {
    PacketFields(FAKE_DNS, TUN_ADDRESS, DNS_PORT, port, reply, r);
  }

  lemma HeaderIn(r: Bytes, h: Bytes, size: nat, src: Address, dst: Address)
    requires h == Header(src, dst, size) && |r| == 28 + size && r[..20] == h
    ensures r[..2] == [0x45, 0] && r[4..10] == [0, 0, 0x40, 0, 64, 17] && LoadU16(r, 2) == Some(|r| % 0x10000)
    ensures Checksum(r[..20]) == 0 && r[12..16] == src && r[16..20] == dst
  {
    HeaderFields(src, dst, size);
    HeaderVerifies(src, dst, size);
    FieldsIn(r, h);
  }

  lemma FieldsIn(r: Bytes, h: Bytes)
    requires |h| == 20 <= |r| && r[..20] == h
    ensures r[..2] == [h[0], h[1]] && r[4..10] == h[4..10] && LoadU16(r, 2) == LoadU16(h, 2)
    ensures r[12..16] == h[12..16] && r[16..20] == h[16..20]
  {
    assert forall i :: 0 <= i < 20 ==> r[i] == h[i];
  }

  /** A datagram to port 53 of 10.0.0.2 that asks for a blocked name is answered from there, to the
      port it came from, with the address 127.0.0.1 for the name it asked for. */
  lemma BlockedNameResolved(ip: Bytes, port: nat, udpRest: Bytes, header: Bytes, labels: seq<Bytes>, question: Bytes,
                            rest: Bytes, blocked: set<Text>, upstream: Upstream) returns (r: Bytes)
    requires IsUdpHeader(ip, [10, 0, 0, 2]) && |udpRest| == 4 && port < 0x10000
    requires |header| == 12 && AreLabels(labels) && ShortLabels(labels) && |question| == 4
    requires IsBlocked(Lowercase(Join(labels)), blocked)
    ensures ProcessPacket(Datagram(ip, port, 53, udpRest, Query(header, labels, question + rest)), blocked, upstream) ==
            Written(r)
    ensures |r| >= 40 && r[12..16] == [10, 0, 0, 2] && r[16..20] == [10, 0, 0, 1]
    ensures LoadU16(r, 20) == Some(53) && LoadU16(r, 22) == Some(port) && r[28..40] == header
    ensures ReadAnswer(r[28..]) == Some(Record(labels, 1, 1, 1, [127, 0, 0, 1], |r| - 28))
  {
    var m := Query(header, labels, question) + ANSWER;
    r := Packet(FAKE_DNS, TUN_ADDRESS, DNS_PORT, port, m);
    BlockedQueryAnswered(ip, port, udpRest, header, labels, question, rest, blocked, upstream);
    ReplyPacket(port, m, r);
    BlockedAnswerRead(m, header, labels, question);
    QueryPrefix(r, m, header, labels, question);
  }

  lemma QueryPrefix(r: Bytes, m: Bytes, header: Bytes, labels: seq<Bytes>, question: Bytes)
    requires |header| == 12 && AreLabels(labels) && m == Query(header, labels, question) + ANSWER
    requires |r| == 28 + |m| && r[28..] == m
    ensures |m| >= 12 && r[28..40] == header
  {
    assert m[..12] == header && r[28..40] == m[..12];
  }

  /** One that asks for any other name gets back what the upstream server said, or itself. */
  lemma OtherNameResolved(ip: Bytes, port: nat, udpRest: Bytes, header: Bytes, labels: seq<Bytes>, rest: Bytes,
                          blocked: set<Text>, upstream: Upstream) returns (r: Bytes)
    requires IsUdpHeader(ip, [10, 0, 0, 2]) && |udpRest| == 4 && port < 0x10000
    requires |header| == 12 && AreLabels(labels)
    requires !IsBlocked(Lowercase(Join(labels)), blocked)
    ensures var query := Query(header, labels, rest);
            var p := Datagram(ip, port, 53, udpRest, query);
            && ProcessPacket(p, blocked, upstream) == Written(r)
            && match upstream(query)
               case None => r == p
               case Some(reply) =>
                 && |r| == 28 + |reply| && r[28..] == reply
                 && r[12..16] == [10, 0, 0, 2] && r[16..20] == [10, 0, 0, 1]
                 && LoadU16(r, 20) == Some(53) && LoadU16(r, 22) == Some(port)
  {
    var query := Query(header, labels, rest);
    OtherQueryForwarded(ip, port, udpRest, header, labels, rest, blocked, upstream);
    match upstream(query) {
      case None =>
        r := Datagram(ip, port, 53, udpRest, query);
      case Some(reply) =>
        r := Packet(FAKE_DNS, TUN_ADDRESS, DNS_PORT, port, reply);
        ReplyPacket(port, reply, r);
    }
  }
}

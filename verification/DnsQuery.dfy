/** DNS questions: reading the queried name, and the reply to a blocked query. */
module DnsQuery {
  import opened Sequences
  import opened ByteStrings
  import opened DnsText

  const DNS_HEADER: nat := 12

  // ----- Reading the queried name

  /** The name read from offset on, appended to sb; None is an index out of bounds. */
  function NameFrom(dns: Bytes, offset: nat, sb: Text): Option<Text>
    decreases |dns| - offset
  {
    if offset >= |dns| || dns[offset] == 0 then Some(sb)
    else
      var next := offset + 1 + dns[offset];
      if next > |dns| then None
      else NameFrom(dns, next, Dotted(sb) + WidenAll(dns[offset + 1..next]))
  }

  function Dotted(sb: Text): Text {
    if sb == [] then sb else sb + [TEXT_DOT]
  }

  function QueryDomain(dns: Bytes): Option<Text> {
    var name :- NameFrom(dns, DNS_HEADER, []);
    Some(Lowercase(name))
  }

  /** Append len bytes, one at a time, until the string ends. */
  method AppendLabel(dns: Bytes, start: nat, len: nat, sb: Text) returns (r: Option<Text>)
    requires start <= |dns|
    ensures r == if start + len <= |dns| then Some(sb + WidenAll(dns[start..start + len])) else None
  {
    var offset, text := start, sb;
    for i := 0 to len
      invariant offset == start + i <= |dns|
      invariant text == sb + WidenAll(dns[start..offset])
    {
      if offset >= |dns| {
        return None;
      }
      assert dns[start..offset + 1] == dns[start..offset] + [dns[offset]];
      text := text + [Widen(dns[offset])];
      offset := offset + 1;
    }
    return Some(text);
  }

  lemma NameStep(dns: Bytes, offset: nat, sb: Text, start: nat, next: nat, text: Option<Text>)
    requires offset < |dns| && dns[offset] != 0 && start == offset + 1 && next == start + dns[offset]
    requires text == if next <= |dns| then Some(Dotted(sb) + WidenAll(dns[start..next])) else None
    ensures NameFrom(dns, offset, sb) == if text.None? then None else NameFrom(dns, next, text.value)
  {
  }

  /** Reading on from the offset, with sb read so far, gives the name of the query. */
  ghost predicate ReadsOn(dns: Bytes, offset: nat, sb: Text) {
    NameFrom(dns, DNS_HEADER, []) == NameFrom(dns, offset, sb)
  }

  lemma ReadLabel(dns: Bytes, offset: nat, sb: Text, start: nat, next: nat, text: Option<Text>)
    requires offset < |dns| && dns[offset] != 0 && start == offset + 1 && next == start + dns[offset]
    requires text == if next <= |dns| then Some(Dotted(sb) + WidenAll(dns[start..next])) else None
    requires ReadsOn(dns, offset, sb)
    ensures text.None? ==> QueryDomain(dns) == None
    ensures text.Some? ==> ReadsOn(dns, next, text.value)
  {
    NameStep(dns, offset, sb, start, next, text);
  }

  lemma ReadEnd(dns: Bytes, offset: nat, sb: Text)
    requires (offset >= |dns| || dns[offset] == 0) && ReadsOn(dns, offset, sb)
    ensures QueryDomain(dns) == Some(Lowercase(sb))
  {
  }

  method ParseDnsQueryDomain(dns: Bytes) returns (r: Option<Text>)
    ensures r == QueryDomain(dns)
  {
    var offset := DNS_HEADER;
    var sb: Text := [];
    while offset < |dns|
      invariant ReadsOn(dns, offset, sb)
      decreases |dns| - offset
    {
      var len: nat := dns[offset];
      if len == 0 {
        break;
      }
      var start, next := offset + 1, offset + 1 + len;
      var text := AppendLabel(dns, start, len, Dotted(sb));
      ReadLabel(dns, offset, sb, start, next, text);
      if text.None? {
        return None;
      }
      offset, sb := next, text.value;
    }
    ReadEnd(dns, offset, sb);
    r := Some(Lowercase(sb));
  }

  // ----- Questions: section 4.1.2 of RFC 1035

  predicate IsLabel(l: Bytes) {
    0 < |l| < 256
  }

  ghost predicate AreLabels(labels: seq<Bytes>) {
    forall i :: 0 <= i < |labels| ==> IsLabel(labels[i])
  }

  function PutLabel(l: Bytes, rest: Bytes): Bytes
    requires IsLabel(l)
  {
    var len: Byte := |l|;
    [len] + (l + rest)
  }

  /** The labels, each with its length, then a zero byte, in front of what follows. */
  function PutLabels(labels: seq<Bytes>, rest: Bytes): Bytes
    requires AreLabels(labels)
  {
    if labels == [] then [0] + rest else PutLabel(labels[0], PutLabels(labels[1..], rest))
  }

  function NameSize(labels: seq<Bytes>): nat {
    if labels == [] then 1 else 1 + |labels[0]| + NameSize(labels[1..])
  }

  function Join(labels: seq<Bytes>): Text {
    if labels == [] then []
    else if |labels| == 1 then WidenAll(labels[0])
    else WidenAll(labels[0]) + ([TEXT_DOT] + Join(labels[1..]))
  }

  /** The labels joined after what is there. */
  function JoinOnto(sb: Text, labels: seq<Bytes>): Text
    decreases |labels|
  {
    if labels == [] then sb else JoinOnto(Dotted(sb) + WidenAll(labels[0]), labels[1..])
  }

  lemma {:induction false} JoinOntoMeaning(sb: Text, labels: seq<Bytes>)
    requires AreLabels(labels) && sb != [] && labels != []
    ensures JoinOnto(sb, labels) == sb + ([TEXT_DOT] + Join(labels))
    decreases |labels|
  {
    var first := (sb + [TEXT_DOT]) + WidenAll(labels[0]);
    if |labels| == 1 {
      assert JoinOnto(first, labels[1..]) == first;
      ConcatAssoc(sb, [TEXT_DOT], WidenAll(labels[0]));
    } else {
      var more := [TEXT_DOT] + Join(labels[1..]);
      JoinOntoMeaning(first, labels[1..]);
      ConcatAssoc(sb + [TEXT_DOT], WidenAll(labels[0]), more);
      ConcatAssoc(sb, [TEXT_DOT], WidenAll(labels[0]) + more);
    }
  }

  lemma JoinOntoEmpty(labels: seq<Bytes>)
    requires AreLabels(labels)
    ensures JoinOnto([], labels) == Join(labels)
  {
    if |labels| == 1 {
      assert [] + WidenAll(labels[0]) == WidenAll(labels[0]);
    } else if |labels| > 1 {
      assert [] + WidenAll(labels[0]) == WidenAll(labels[0]);
      assert IsLabel(labels[0]);
      JoinOntoMeaning(WidenAll(labels[0]), labels[1..]);
    }
  }

  lemma LabelAt(dns: Bytes, off: nat, l: Bytes, rest: Bytes) returns (next: nat)
    requires IsLabel(l) && Ends(dns, off, PutLabel(l, rest))
    ensures off < |dns| && dns[off] == |l|
    ensures next == off + 1 + |l| && Ends(dns, next, rest) && dns[off + 1..next] == l
  {
    var len: Byte := |l|;
    EndsByte(dns, off, [len] + (l + rest), 0);
    next := EndsSplit(dns, off, [len], l + rest);
    var body := next;
    next := EndsSplit(dns, body, l, rest);
    forall i | 0 <= i < |l|
      ensures dns[body + i] == l[i]
    {
      assert (l + rest)[i] == l[i];
    }
  }

  lemma JoinOntoStep(sb: Text, first: Bytes, labels: seq<Bytes>, more: seq<Bytes>)
    requires labels != [] && first == labels[0] && more == labels[1..]
    ensures JoinOnto(sb, labels) == JoinOnto(Dotted(sb) + WidenAll(first), more)
  {
  }

  lemma {:induction false} NameOfLabels(dns: Bytes, off: nat, sb: Text, labels: seq<Bytes>, rest: Bytes)
    requires AreLabels(labels) && Ends(dns, off, PutLabels(labels, rest))
    ensures NameFrom(dns, off, sb) == Some(JoinOnto(sb, labels))
    decreases |labels|
  {
    if labels == [] {
      EndsByte(dns, off, [0] + rest, 0);
    } else {
      var l, more := labels[0], labels[1..];
      assert IsLabel(l);
      var next := LabelAt(dns, off, l, PutLabels(more, rest));
      NameStep(dns, off, sb, off + 1, next, Some(Dotted(sb) + WidenAll(l)));
      NameOfLabels(dns, next, Dotted(sb) + WidenAll(l), more, rest);
      JoinOntoStep(sb, l, labels, more);
    }
  }

  /** A query message: a header, the name, and what follows it. */
  function Query(header: Bytes, labels: seq<Bytes>, rest: Bytes): Bytes
    requires AreLabels(labels)
  {
    header + PutLabels(labels, rest)
  }

  lemma QueryEnds(header: Bytes, labels: seq<Bytes>, rest: Bytes)
    requires AreLabels(labels)
    ensures Ends(Query(header, labels, rest), |header|, PutLabels(labels, rest))
  {
  }

  /** Reading an encoded question gives its labels in lower case, joined by dots. */
  lemma QueryDomainRoundTrip(header: Bytes, labels: seq<Bytes>, rest: Bytes)
    requires |header| == DNS_HEADER && AreLabels(labels)
    ensures QueryDomain(Query(header, labels, rest)) == Some(Lowercase(Join(labels)))
  {
    QueryEnds(header, labels, rest);
    NameOfLabels(Query(header, labels, rest), DNS_HEADER, [], labels, rest);
    JoinOntoEmpty(labels);
  }

  // ----- The reply to a blocked query

  const ANSWER: Bytes := [0xC0, 0x0C, 0, 1, 0, 1, 0, 0, 0, 1, 0, 4, 127, 0, 0, 1]

  /** Where the scan for the end of the name stops. */
  function ScanName(query: Bytes, offset: nat): (end: nat)
    ensures offset <= end
    decreases |query| - offset
  {
    if offset < |query| && query[offset] != 0 then ScanName(query, offset + query[offset] + 1) else offset
  }

  /** The question copied from the query, and the answer record; None is a range error. */
  function BlockedResponse(query: Bytes): Option<Bytes> {
    var end := ScanName(query, DNS_HEADER) + 5;
    if end > |query| then None else Some(query[..end] + ANSWER)
  }

  method BuildBlockedDnsResponse(query: Bytes) returns (r: Option<Bytes>)
    ensures r == BlockedResponse(query)
  {
    // The flags are set in a copy that the result does not use.
    var response := new Byte[|query| + 16](i => 0);
    forall i | 0 <= i < |query| {
      response[i] := query[i];
    }
    response[2], response[3] := 0x81, 0x80;
    response[6], response[7] := 0, 1;

    var offset := DNS_HEADER;
    while offset < |query| && query[offset] != 0
      invariant ScanName(query, DNS_HEADER) == ScanName(query, offset)
      decreases |query| - offset
    {
      offset := offset + query[offset] + 1;
    }
    offset := offset + 5;
    if offset > |query| {
      return None;
    }
    return Some(query[..offset] + ANSWER);
  }

  lemma {:induction false} ScanOfLabels(query: Bytes, off: nat, labels: seq<Bytes>, rest: Bytes)
    requires AreLabels(labels) && Ends(query, off, PutLabels(labels, rest))
    ensures ScanName(query, off) + 1 == off + NameSize(labels)
    ensures Ends(query, off + NameSize(labels), rest)
    decreases |labels|
  {
    if labels == [] {
      EndsByte(query, off, [0] + rest, 0);
      var next := EndsSplit(query, off, [0], rest);
    } else {
      var next := LabelAt(query, off, labels[0], PutLabels(labels[1..], rest));
      ScanOfLabels(query, next, labels[1..], rest);
      assert next + NameSize(labels[1..]) == off + NameSize(labels);
    }
  }

  lemma {:induction false} PutLabelsConcat(labels: seq<Bytes>, a: Bytes, b: Bytes)
    requires AreLabels(labels)
    ensures PutLabels(labels, a + b) == PutLabels(labels, a) + b
    ensures |PutLabels(labels, a)| == NameSize(labels) + |a|
    decreases |labels|
  {
    if labels == [] {
      assert [0] + (a + b) == ([0] + a) + b;
    } else {
      PutLabelsConcat(labels[1..], a, b);
      var len: Byte := |labels[0]|;
      var tail := PutLabels(labels[1..], a);
      assert [len] + (labels[0] + (tail + b)) == ([len] + (labels[0] + tail)) + b;
    }
  }

  /** The scan ends at the same terminator as the reading of the name: the reply to an
      encoded question is the query up to the end of QCLASS, then the sixteen bytes of the record. */
  lemma BlockedResponseLayout(header: Bytes, labels: seq<Bytes>, question: Bytes, rest: Bytes)
    requires |header| == DNS_HEADER && AreLabels(labels) && |question| == 4
    ensures BlockedResponse(Query(header, labels, question + rest)) ==
            Some(Query(header, labels, question) + [192, 12, 0, 1, 0, 1, 0, 0, 0, 1, 0, 4, 127, 0, 0, 1])
  {
    var query := Query(header, labels, question + rest);
    QueryEnds(header, labels, question + rest);
    ScanOfLabels(query, DNS_HEADER, labels, question + rest);
    QueryConcat(header, labels, question, rest);
    PrefixOfConcat(Query(header, labels, question), rest);
  }

  lemma QueryConcat(header: Bytes, labels: seq<Bytes>, question: Bytes, rest: Bytes)
    requires AreLabels(labels)
    ensures Query(header, labels, question + rest) == Query(header, labels, question) + rest
    ensures |Query(header, labels, question)| == |header| + NameSize(labels) + |question|
  {
    PutLabelsConcat(labels, question, rest);
    assert header + (PutLabels(labels, question) + rest) == (header + PutLabels(labels, question)) + rest;
  }

  lemma PrefixOfConcat(a: Bytes, b: Bytes)
    ensures (a + b)[..|a|] == a
  {
  }

  // ----- The flags of the reply

  /** The QR bit. */
  predicate MarkedAsResponse(m: Bytes)
    requires |m| >= DNS_HEADER
  {
    m[2] >= 128
  }

  function AnswerCount(m: Bytes): nat
    requires |m| >= DNS_HEADER
  {
    LoadU16(m, 6).value
  }

  /** The reply is marked as a response with one answer exactly when the query was, since
      its header is the query's. */
  lemma ReplyMarkedIff(query: Bytes)
    requires BlockedResponse(query).Some?
    ensures |query| >= DNS_HEADER && |BlockedResponse(query).value| >= DNS_HEADER
    ensures var reply := BlockedResponse(query).value;
            MarkedAsResponse(reply) && AnswerCount(reply) == 1 <==> MarkedAsResponse(query) && AnswerCount(query) == 1
  {
    var reply := BlockedResponse(query).value;
    assert forall i :: 0 <= i < DNS_HEADER ==> reply[i] == query[i];
  }

  /** Every query is answered with a message that is still marked as a query. */
  lemma QueryStaysUnmarked(header: Bytes, labels: seq<Bytes>, question: Bytes, rest: Bytes)
    requires |header| == DNS_HEADER && AreLabels(labels) && |question| == 4 && !MarkedAsResponse(header)
    ensures var reply := BlockedResponse(Query(header, labels, question + rest));
            reply.Some? && |reply.value| >= DNS_HEADER && !MarkedAsResponse(reply.value)
  {
    BlockedResponseLayout(header, labels, question, rest);
    assert (Query(header, labels, question) + ANSWER)[2] == header[2];
  }

  /** The query for one letter, with the recursion-desired flag and one question. */
  lemma UnmarkedReplyWitness()
    ensures var query := Query([0, 7, 1, 0, 0, 1, 0, 0, 0, 0, 0, 0], [[97]], [0, 1, 0, 1]);
            var reply := BlockedResponse(query);
            reply.Some? && |reply.value| >= DNS_HEADER && !MarkedAsResponse(reply.value)
  {
    var header: Bytes := [0, 7, 1, 0, 0, 1, 0, 0, 0, 0, 0, 0];
    var question: Bytes := [0, 1, 0, 1];
    QueryStaysUnmarked(header, [[97]], question, []);
    assert question + [] == question;
  }
}

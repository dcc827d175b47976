/** What the reader of questions makes of any bytes: the labels that stand in them, and where the
    question ends. */
module DnsNames {
  import opened ByteStrings
  import opened DnsText
  import opened DnsQuery
  import opened UdpPacket
  import opened DnsVpn

  /** The labels stand at off, one after the other, whole; after them comes a zero byte or nothing. */
  ghost predicate Stands(dns: Bytes, off: nat, labels: seq<Bytes>)
    decreases |labels|
  {
    if labels == [] then off >= |dns| || dns[off] == 0
    else
      var next := off + 1 + |labels[0]|;
      && 0 < |labels[0]| && next <= |dns| && dns[off] == |labels[0]| && dns[off + 1..next] == labels[0]
      && Stands(dns, next, labels[1..])
  }

  lemma {:induction false} StandingLabels(dns: Bytes, off: nat, labels: seq<Bytes>)
    requires Stands(dns, off, labels)
    ensures AreLabels(labels)
    decreases |labels|
  {
    if labels != [] {
      StandingLabels(dns, off + 1 + |labels[0]|, labels[1..]);
      assert labels == [labels[0]] + labels[1..];
    }
  }

  lemma {:induction false} StandingRead(dns: Bytes, off: nat, sb: Text, labels: seq<Bytes>)
    requires Stands(dns, off, labels)
    ensures NameFrom(dns, off, sb) == Some(JoinOnto(sb, labels))
    decreases |labels|
  {
    if labels != [] {
      var next, text := off + 1 + |labels[0]|, Dotted(sb) + WidenAll(labels[0]);
      NameStep(dns, off, sb, off + 1, next, Some(text));
      StandingRead(dns, next, text, labels[1..]);
      JoinOntoStep(sb, labels[0], labels, labels[1..]);
    }
  }

  lemma OneMoreStands(dns: Bytes, off: nat, first: Bytes, next: nat, rest: seq<Bytes>)
    requires 0 < |first| && next == off + 1 + |first| <= |dns| && dns[off] == |first| && dns[off + 1..next] == first
    requires Stands(dns, next, rest)
    ensures Stands(dns, off, [first] + rest)
  {
    assert ([first] + rest)[1..] == rest;
  }

  lemma {:induction false} ReadStanding(dns: Bytes, off: nat, sb: Text) returns (labels: seq<Bytes>)
    requires NameFrom(dns, off, sb).Some?
    ensures Stands(dns, off, labels)
    decreases |dns| - off
  {
    labels := [];
    if off < |dns| && dns[off] != 0 {
      var next := off + 1 + dns[off];
      var first := dns[off + 1..next];
      var rest := ReadStanding(dns, next, Dotted(sb) + WidenAll(first));
      OneMoreStands(dns, off, first, next, rest);
      labels := [first] + rest;
    }
  }

  /** On any bytes: a name is read exactly when labels stand after the header, and it is those labels
      in lower case, joined by dots; when a label is cut off there is none. */
  lemma NameReadIff(dns: Bytes, name: Text)
    ensures QueryDomain(dns) == Some(name) <==>
            exists labels :: Stands(dns, 12, labels) && name == Lowercase(Join(labels))
  {
    forall labels | Stands(dns, 12, labels)
      ensures QueryDomain(dns) == Some(Lowercase(Join(labels)))
    {
      StandingLabels(dns, 12, labels);
      StandingRead(dns, 12, [], labels);
      JoinOntoEmpty(labels);
    }
    if QueryDomain(dns) == Some(name) {
      var labels := ReadStanding(dns, 12, []);
      assert name == Lowercase(Join(labels));
    }
  }

  lemma {:induction false} ScanEnds(dns: Bytes, off: nat, labels: seq<Bytes>)
    requires Stands(dns, off, labels)
    ensures ScanName(dns, off) + 1 == off + NameSize(labels)
    decreases |labels|
  {
    if labels != [] {
      ScanEnds(dns, off + 1 + |labels[0]|, labels[1..]);
    }
  }

  /** A query whose labels stand is answered exactly when its question is whole, with the bytes up to
      the end of the question and the sixteen of the record; otherwise the range is out of bounds. */
  lemma AnsweredIffWhole(dns: Bytes, labels: seq<Bytes>)
    requires Stands(dns, 12, labels)
    ensures var end := 12 + NameSize(labels) + 4;
            BlockedResponse(dns) ==
            if end > |dns| then None
            else Some(dns[..end] + [192, 12, 0, 1, 0, 1, 0, 0, 0, 1, 0, 4, 127, 0, 0, 1])
  {
    ScanEnds(dns, 12, labels);
  }

  /** The packets on which the loop ends, beside those whose header overruns: queries for a blocked
      name whose labels stand and whose question does not. */
  lemma CutIff(p: Bytes, blocked: set<Text>)
    requires p != [] && IsDnsQuery(p) == Some(true)
    ensures BlockedQuestionCut(p, blocked) <==>
            && HeaderLength(p) + 8 < |p|
            && var dns := p[HeaderLength(p) + 8..];
               exists labels ::
                 && Stands(dns, 12, labels) && IsBlocked(Lowercase(Join(labels)), blocked)
                 && 12 + NameSize(labels) + 4 > |dns|
  {
    if HeaderLength(p) + 8 < |p| {
      var dns := p[HeaderLength(p) + 8..];
      forall labels | Stands(dns, 12, labels)
        ensures QueryDomain(dns) == Some(Lowercase(Join(labels)))
        ensures ScanName(dns, 12) + 1 == 12 + NameSize(labels)
      {
        NameReadIff(dns, Lowercase(Join(labels)));
        ScanEnds(dns, 12, labels);
      }
      if QueryDomain(dns).Some? {
        NameReadIff(dns, QueryDomain(dns).value);
      }
    }
  }
}

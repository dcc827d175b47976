/** Structured ClientHello messages, their encoding in a packet, and the verdict the
    classifier reaches on each of them. */
module ClientHello {
  import opened ByteStrings
  import opened SniParser

  datatype ServerName = ServerName(nameType: Byte, name: Bytes)

  /** A server_name extension, or one of another type. */
  datatype Extension = Sni(list: seq<ServerName>) | Other(kind: nat, body: Bytes)

  datatype Hello = Hello(version: Bytes, random: Bytes, sessionId: Bytes, cipherSuites: Bytes,
                         compression: Bytes, extensions: seq<Extension>)

  /** A ClientHello in one TLS record, behind a link header (possibly none), an IP header
      and a TCP header, and followed by anything. */
  datatype Frame = Frame(link: Bytes, ip: Bytes, tcp: Bytes, recordVersion: Bytes, hello: Hello, trailing: Bytes)

  // ----- Encoding: section 4.1.2 of RFC 8446 and section 3 of RFC 6066.
  // Each encoder writes in front of the bytes that follow it in the packet.

  function PutName(n: ServerName, rest: Bytes): Bytes {
    [n.nameType] + (U16(|n.name|) + (n.name + rest))
  }

  function PutNames(list: seq<ServerName>, rest: Bytes): Bytes {
    if list == [] then rest else PutName(list[0], PutNames(list[1..], rest))
  }

  function NamesSize(list: seq<ServerName>): nat {
    if list == [] then 0 else 3 + |list[0].name| + NamesSize(list[1..])
  }

  function Kind(e: Extension): nat {
    if e.Sni? then 0 else e.kind
  }

  function BodySize(e: Extension): nat {
    if e.Sni? then 2 + NamesSize(e.list) else |e.body|
  }

  function PutBody(e: Extension, rest: Bytes): Bytes {
    if e.Sni? then U16(NamesSize(e.list)) + PutNames(e.list, rest) else e.body + rest
  }

  function PutExtension(e: Extension, rest: Bytes): Bytes {
    U16(Kind(e)) + (U16(BodySize(e)) + PutBody(e, rest))
  }

  function PutExtensions(es: seq<Extension>, rest: Bytes): Bytes {
    if es == [] then rest else PutExtension(es[0], PutExtensions(es[1..], rest))
  }

  /** The encoded size of the first k extensions. */
  function Offset(es: seq<Extension>, k: nat): nat
    requires k <= |es|
  {
    if k == 0 then 0 else 4 + BodySize(es[0]) + Offset(es[1..], k - 1)
  }

  function BlockSize(es: seq<Extension>): nat {
    Offset(es, |es|)
  }

  /** A vector with a one-byte length. */
  function PutVector8(s: Bytes, rest: Bytes): Bytes
    requires |s| < 256
  {
    var len: Byte := |s|;
    [len] + (s + rest)
  }

  /** A vector with a two-byte length. */
  function PutVector16(s: Bytes, rest: Bytes): Bytes {
    U16(|s|) + (s + rest)
  }

  predicate WellFormedExtension(e: Extension) {
    && BodySize(e) < 65536
    && match e
       case Sni(list) => list != []
       case Other(kind, _) => 0 < kind < 65536
  }

  predicate WellFormedBlock(es: seq<Extension>) {
    forall i :: 0 <= i < |es| ==> WellFormedExtension(es[i])
  }

  predicate WellFormed(h: Hello) {
    && |h.version| == 2 && |h.random| == 32
    && |h.sessionId| < 256 && |h.cipherSuites| < 65536 && |h.compression| < 256
    && BlockSize(h.extensions) < 65536
    && WellFormedBlock(h.extensions)
  }

  /** The body of a ClientHello up to its extension block of the given size. */
  function PutHello(h: Hello, size: nat, block: Bytes): Bytes
    requires WellFormed(h)
  {
    h.version + (h.random + PutVector8(h.sessionId, PutVector16(h.cipherSuites, PutVector8(h.compression,
    U16(size) + block))))
  }

  /** A handshake message of type client_hello in a record of type handshake. */
  function PutRecord(version: Bytes, h: Hello, size: nat, block: Bytes): Bytes
    requires WellFormed(h)
  {
    var len := 41 + |h.sessionId| + |h.cipherSuites| + |h.compression| + size;
    [22] + (version + (U16(len + 4) + ([1, len / 65536 % 256] + (U16(len) + PutHello(h, size, block)))))
  }

  predicate IsIpv4Tcp(ip: Bytes) {
    |ip| >= 20 && ip[0] / 16 == 4 && |ip| == ip[0] % 16 * 4 && ip[9] == 6
  }

  predicate IsIpv6Tcp(ip: Bytes) {
    |ip| == 40 && ip[0] / 16 == 6 && ip[6] == 6
  }

  /** No link header, or an Ethernet header that does not look like an IP header. */
  predicate LinkAnnounces(link: Bytes, ip: Bytes) {
    || link == []
    || (&& |link| == 14 && link[0] / 16 != 4 && link[0] / 16 != 6
        && link[12..] == if IsIpv4Tcp(ip) then U16(0x0800) else U16(0x86DD))
  }

  predicate IsTcp(tcp: Bytes) {
    |tcp| >= 20 && |tcp| == tcp[12] / 16 * 4
  }

  predicate WellFramed(f: Frame) {
    && (IsIpv4Tcp(f.ip) || IsIpv6Tcp(f.ip))
    && LinkAnnounces(f.link, f.ip)
    && IsTcp(f.tcp)
    && |f.recordVersion| == 2
    && WellFormed(f.hello)
  }

  function Packet(f: Frame): Bytes
    requires WellFramed(f)
  {
    var es := f.hello.extensions;
    f.link + (f.ip + (f.tcp + PutRecord(f.recordVersion, f.hello, BlockSize(es), PutExtensions(es, f.trailing))))
  }

  // ----- What the classifier sees of it

  /** The index of the first server_name extension, or the number of extensions. */
  function SniIndex(es: seq<Extension>): (k: nat)
    ensures k <= |es|
    ensures forall i :: 0 <= i < k ==> !es[i].Sni?
    ensures k < |es| ==> es[k].Sni?
  {
    if es == [] || es[0].Sni? then 0 else 1 + SniIndex(es[1..])
  }

  /** The scan reaches the server_name extension. */
  predicate Reached(es: seq<Extension>) {
    var k := SniIndex(es);
    k < |es| && k < MAX_EXTENSIONS && Offset(es, k) <= MAX_EXTENSION_OFFSET
  }

  predicate ShortPrefix(h: Hello) {
    |h.sessionId| <= 32 && |h.cipherSuites| <= 512 && |h.compression| <= 32
  }

  function FirstName(es: seq<Extension>): ServerName
    requires Reached(es) && WellFormedBlock(es)
  {
    assert WellFormedExtension(es[SniIndex(es)]);
    es[SniIndex(es)].list[0]
  }

  /** The bytes that follow the first server name in the packet. */
  function After(es: seq<Extension>, trailing: Bytes): Bytes
    requires Reached(es) && WellFormedBlock(es)
  {
    var k := SniIndex(es);
    assert WellFormedExtension(es[k]);
    PutNames(es[k].list[1..], PutExtensions(es[k + 1..], trailing))
  }

  /** The first server name is one that the classifier loads. */
  predicate NameLoads(es: seq<Extension>, trailing: Bytes)
    requires WellFormedBlock(es)
  {
    && Reached(es)
    && var n := FirstName(es);
       && n.nameType == 0 && 0 < |n.name| < 128
       && (|n.name| % 2 == 0 ==> After(es, trailing) != [])
  }

  /** The name, with the byte after it when its length is even. */
  function RawName(es: seq<Extension>, trailing: Bytes): (raw: Bytes)
    requires WellFormedBlock(es) && NameLoads(es, trailing)
    ensures |raw| == ReadLen(|FirstName(es).name|)
  {
    var name := FirstName(es).name;
    if |name| % 2 == 0 then name + [After(es, trailing)[0]] else name
  }

  /** The classifier gets to judge a name. */
  predicate Judged(f: Frame)
    requires WellFramed(f)
  {
    ShortPrefix(f.hello) && NameLoads(f.hello.extensions, f.trailing)
  }

  // ----- The parser inverts the encoder

  lemma Ipv4Header(p: Bytes, off: nat, ip: Bytes, rest: Bytes) returns (next: nat)
    requires IsIpv4Tcp(ip) && Ends(p, off, ip + rest)
    ensures LoadU8(p, off) == Some(ip[0]) && Ipv4Payload(p, off) == Some(next)
    ensures next == off + |ip| && Ends(p, next, rest)
  {
    EndsByte(p, off, ip + rest, 0);
    EndsByte(p, off, ip + rest, 9);
    next := EndsSplit(p, off, ip, rest);
  }

  lemma Ipv6Header(p: Bytes, off: nat, ip: Bytes, rest: Bytes) returns (next: nat)
    requires IsIpv6Tcp(ip) && Ends(p, off, ip + rest)
    ensures LoadU8(p, off) == Some(ip[0]) && Ipv6Payload(p, off) == Some(next)
    ensures next == off + |ip| && Ends(p, next, rest)
  {
    EndsByte(p, off, ip + rest, 0);
    EndsByte(p, off, ip + rest, 6);
    next := EndsSplit(p, off, ip, rest);
  }

  lemma IpHeader(p: Bytes, link: Bytes, ip: Bytes, rest: Bytes) returns (next: nat)
    requires IsIpv4Tcp(ip) || IsIpv6Tcp(ip)
    requires LinkAnnounces(link, ip) && Ends(p, 0, link + (ip + rest))
    ensures FindTcp(p) == Some(next) && Ends(p, next, rest)
  {
    next := EndsSplit(p, 0, link, ip + rest);
    if IsIpv4Tcp(ip) {
      next := Ipv4Header(p, next, ip, rest);
    } else {
      next := Ipv6Header(p, next, ip, rest);
    }
    if link != [] {
      EtherType(p, link, ip + rest, if IsIpv4Tcp(ip) then 0x0800 else 0x86DD);
    }
  }

  lemma EtherType(p: Bytes, link: Bytes, rest: Bytes, etherType: nat)
    requires |link| == 14 && link[12..] == U16(etherType) && etherType < 65536
    requires Ends(p, 0, link + rest)
    ensures LoadU8(p, 0) == Some(link[0]) && LoadU16(p, 12) == Some(etherType)
  {
    EndsByte(p, 0, link + rest, 0);
    assert link == link[..12] + U16(etherType);
    assert link + rest == link[..12] + (U16(etherType) + rest);
    var o := EndsSplit(p, 0, link[..12], U16(etherType) + rest);
    o := EndsU16(p, o, etherType, rest);
  }

  lemma TcpHeader(p: Bytes, off: nat, tcp: Bytes, rest: Bytes) returns (next: nat)
    requires IsTcp(tcp) && Ends(p, off, tcp + rest)
    ensures FindRecord(p, off) == Some(next) && Ends(p, next, rest)
  {
    EndsByte(p, off, tcp + rest, 12);
    next := EndsSplit(p, off, tcp, rest);
  }

  lemma RecordHeader(p: Bytes, rec: nat, version: Bytes, h: Hello, size: nat, block: Bytes) returns (next: nat)
    requires WellFormed(h) && |version| == 2 && Ends(p, rec, PutRecord(version, h, size, block))
    ensures LoadU8(p, rec) == Some(22) && LoadU8(p, rec + 5) == Some(1)
    ensures next == rec + 9 && Ends(p, next, PutHello(h, size, block))
  {
    var len := 41 + |h.sessionId| + |h.cipherSuites| + |h.compression| + size;
    var hello := PutHello(h, size, block);
    var t1: Bytes := [1, len / 65536 % 256] + (U16(len) + hello);
    var t0 := U16(len + 4) + t1;
    EndsByte(p, rec, [22] + (version + t0), 0);
    next := EndsSplit(p, rec, [22], version + t0);
    next := EndsSplit(p, next, version, t0);
    next := EndsSplit(p, next, U16(len + 4), t1);
    EndsByte(p, next, t1, 0);
    next := EndsSplit(p, next, [1, len / 65536 % 256], U16(len) + hello);
    next := EndsSplit(p, next, U16(len), hello);
  }

  lemma Vector8(p: Bytes, off: nat, s: Bytes, rest: Bytes) returns (next: nat)
    requires |s| < 256 && Ends(p, off, PutVector8(s, rest))
    ensures LoadU8(p, off) == Some(|s|)
    ensures next == off + 1 + |s| && Ends(p, next, rest)
  {
    var len: Byte := |s|;
    EndsByte(p, off, [len] + (s + rest), 0);
    next := EndsSplit(p, off, [len], s + rest);
    next := EndsSplit(p, next, s, rest);
  }

  lemma Vector16(p: Bytes, off: nat, s: Bytes, rest: Bytes) returns (next: nat)
    requires |s| < 65536 && Ends(p, off, PutVector16(s, rest))
    ensures LoadU16(p, off) == Some(|s|)
    ensures next == off + 2 + |s| && Ends(p, next, rest)
  {
    next := EndsU16(p, off, |s|, s + rest);
    next := EndsSplit(p, next, s, rest);
  }

  /** The three length-prefixed vectors after version and random, and the length of the block. */
  lemma HelloVectors(p: Bytes, start: nat, h: Hello, size: nat, block: Bytes) returns (next: nat)
    requires WellFormed(h) && size < 65536 && Ends(p, start, PutHello(h, size, block))
    ensures LoadU8(p, start + 34) == Some(|h.sessionId|)
    ensures LoadU16(p, start + 35 + |h.sessionId|) == Some(|h.cipherSuites|)
    ensures LoadU8(p, start + 37 + |h.sessionId| + |h.cipherSuites|) == Some(|h.compression|)
    ensures LoadU16(p, start + 38 + |h.sessionId| + |h.cipherSuites| + |h.compression|) == Some(size)
    ensures next == start + 40 + |h.sessionId| + |h.cipherSuites| + |h.compression| && Ends(p, next, block)
  {
    var t2 := PutVector8(h.compression, U16(size) + block);
    var t1 := PutVector16(h.cipherSuites, t2);
    var t0 := PutVector8(h.sessionId, t1);
    next := EndsSplit(p, start, h.version, h.random + t0);
    next := EndsSplit(p, next, h.random, t0);
    assert next == start + 34;
    next := Vector8(p, next, h.sessionId, t1);
    assert next == start + 35 + |h.sessionId|;
    next := Vector16(p, next, h.cipherSuites, t2);
    assert next == start + 37 + |h.sessionId| + |h.cipherSuites|;
    next := Vector8(p, next, h.compression, U16(size) + block);
    assert next == start + 38 + |h.sessionId| + |h.cipherSuites| + |h.compression|;
    next := EndsU16(p, next, size, block);
  }

  /** The extension block starts here when the variable-length fields are within bounds,
      and is given up otherwise. */
  lemma HelloFields(p: Bytes, rec: nat, version: Bytes, h: Hello, size: nat, block: Bytes) returns (start: nat)
    requires WellFormed(h) && |version| == 2 && size < 65536
    requires Ends(p, rec, PutRecord(version, h, size, block))
    ensures FindExtensions(p, rec) == if ShortPrefix(h) then Some(Span(start, size)) else None
    ensures Ends(p, start, block)
  {
    start := RecordHeader(p, rec, version, h, size, block);
    assert start + 34 == rec + 43;
    assert start + 35 + |h.sessionId| == rec + 44 + |h.sessionId|;
    start := HelloVectors(p, start, h, size, block);
  }

  lemma ExtensionHead(p: Bytes, off: nat, e: Extension, rest: Bytes) returns (body: nat, next: nat)
    requires WellFormedExtension(e) && Ends(p, off, PutExtension(e, rest))
    ensures LoadU16(p, off) == Some(Kind(e)) && LoadU16(p, off + 2) == Some(BodySize(e))
    ensures body == off + 4 && Ends(p, body, PutBody(e, rest))
    ensures next == off + 4 + BodySize(e) && Ends(p, next, rest)
  {
    body := EndsU16(p, off, Kind(e), U16(BodySize(e)) + PutBody(e, rest));
    body := EndsU16(p, body, BodySize(e), PutBody(e, rest));
    match e
    case Sni(list) =>
      next := EndsSplit(p, body, U16(NamesSize(list)), PutNames(list, rest));
      next := SkipNames(p, next, list, rest);
    case Other(_, content) =>
      next := EndsSplit(p, body, content, rest);
  }

  lemma {:induction false} SkipNames(p: Bytes, off: nat, list: seq<ServerName>, rest: Bytes) returns (next: nat)
    requires Ends(p, off, PutNames(list, rest))
    ensures next == off + NamesSize(list) && Ends(p, next, rest)
    decreases |list|
  {
    next := off;
    if list != [] {
      var tail := PutNames(list[1..], rest);
      next := NameBytes(p, off, list[0], tail);
      next := EndsSplit(p, next, list[0].name, tail);
      next := SkipNames(p, next, list[1..], rest);
    }
  }

  lemma NameBytes(p: Bytes, off: nat, n: ServerName, rest: Bytes) returns (next: nat)
    requires Ends(p, off, PutName(n, rest))
    ensures LoadU8(p, off) == Some(n.nameType)
    ensures |n.name| < 65536 ==> LoadU16(p, off + 1) == Some(|n.name|)
    ensures next == off + 3 && Ends(p, next, n.name + rest)
  {
    EndsByte(p, off, PutName(n, rest), 0);
    next := EndsSplit(p, off, [n.nameType], U16(|n.name|) + (n.name + rest));
    if |n.name| < 65536 {
      next := EndsU16(p, next, |n.name|, n.name + rest);
    } else {
      next := EndsSplit(p, next, U16(|n.name|), n.name + rest);
    }
  }

  lemma ScanStep(p: Bytes, exts: Span, cur: nat, rounds: nat, kind: nat, len: nat, after: nat)
    requires after == cur + 4 + len
    requires rounds > 0 && cur + 4 <= exts.len
    requires LoadU16(p, exts.start + cur) == Some(kind) && LoadU16(p, exts.start + cur + 2) == Some(len)
    ensures ScanExtensions(p, exts, cur, rounds) ==
            if kind == 0 then Some(exts.start + cur + 4)
            else if after > MAX_EXTENSION_OFFSET then None
            else ScanExtensions(p, exts, after, rounds - 1)
  {
  }

  /** The types and lengths of the extensions es can be loaded one after the other from off. */
  ghost predicate HeadsLaidOut(p: Bytes, off: nat, es: seq<Extension>)
    decreases |es|
  {
    es != [] ==>
      && LoadU16(p, off) == Some(Kind(es[0])) && LoadU16(p, off + 2) == Some(BodySize(es[0]))
      && HeadsLaidOut(p, off + 4 + BodySize(es[0]), es[1..])
  }

  lemma {:induction false} EncodingLaysOutHeads(p: Bytes, off: nat, es: seq<Extension>, rest: Bytes)
    requires WellFormedBlock(es) && Ends(p, off, PutExtensions(es, rest))
    ensures HeadsLaidOut(p, off, es)
    decreases |es|
  {
    if es != [] {
      var body, next := ExtensionHead(p, off, es[0], PutExtensions(es[1..], rest));
      EncodingLaysOutHeads(p, next, es[1..], rest);
      HeadsStep(p, off, es, next);
    }
  }

  lemma HeadsStep(p: Bytes, off: nat, es: seq<Extension>, next: nat)
    requires es != [] && next == off + 4 + BodySize(es[0])
    requires LoadU16(p, off) == Some(Kind(es[0])) && LoadU16(p, off + 2) == Some(BodySize(es[0]))
    requires HeadsLaidOut(p, next, es[1..])
    ensures HeadsLaidOut(p, off, es)
  {
  }

  /** The bounded scan stops at the body of the first server_name extension, if that is
      among the extensions it still looks at. */
  lemma {:induction false} ScanFinds(p: Bytes, exts: Span, cur: nat, rounds: nat, es: seq<Extension>)
    requires WellFormedBlock(es) && HeadsLaidOut(p, exts.start + cur, es)
    requires exts.len == cur + BlockSize(es) && cur <= MAX_EXTENSION_OFFSET
    ensures ScanExtensions(p, exts, cur, rounds) == Expected(exts.start, cur, rounds, es)
    decreases rounds
  {
    if es != [] && rounds > 0 {
      var after := cur + 4 + BodySize(es[0]);
      ScanStep(p, exts, cur, rounds, Kind(es[0]), BodySize(es[0]), after);
      ExpectedStep(exts.start, cur, rounds, es, after);
      if !es[0].Sni? && after <= MAX_EXTENSION_OFFSET {
        ScanFinds(p, exts, after, rounds - 1, es[1..]);
      }
    }
  }

  /** Where the scan over es, standing at offset cur of the block, should stop. */
  function Expected(start: nat, cur: nat, rounds: nat, es: seq<Extension>): Option<nat> {
    var k := SniIndex(es);
    if k < |es| && k < rounds && cur + Offset(es, k) <= MAX_EXTENSION_OFFSET
    then Some(start + cur + Offset(es, k) + 4)
    else None
  }

  lemma ExpectedStep(start: nat, cur: nat, rounds: nat, es: seq<Extension>, after: nat)
    requires es != [] && cur <= MAX_EXTENSION_OFFSET && after == cur + 4 + BodySize(es[0])
    ensures Expected(start, cur, rounds, es) ==
            if rounds == 0 then None
            else if es[0].Sni? then Some(start + cur + 4)
            else if after > MAX_EXTENSION_OFFSET then None
            else Expected(start, after, rounds - 1, es[1..])
  {
    if !es[0].Sni? {
      assert SniIndex(es) == 1 + SniIndex(es[1..]);
      if SniIndex(es) < |es| {
        assert Offset(es, SniIndex(es)) == 4 + BodySize(es[0]) + Offset(es[1..], SniIndex(es[1..]));
      }
    }
  }

  /** Skipping k extensions leaves the packet at the k-th. */
  lemma {:induction false} SkipExtensions(p: Bytes, off: nat, es: seq<Extension>, k: nat, rest: Bytes) returns (next: nat)
    requires k <= |es| && WellFormedBlock(es)
    requires Ends(p, off, PutExtensions(es, rest))
    ensures next == off + Offset(es, k) && Ends(p, next, PutExtensions(es[k..], rest))
    decreases k
  {
    if k == 0 {
      assert es[k..] == es;
      next := off;
    } else {
      var body;
      body, next := ExtensionHead(p, off, es[0], PutExtensions(es[1..], rest));
      next := SkipExtensions(p, next, es[1..], k - 1, rest);
      assert es[1..][k - 1..] == es[k..];
    }
  }

  /** What the packet holds at the first server_name extension. */
  lemma FirstNameAt(p: Bytes, start: nat, es: seq<Extension>, trailing: Bytes) returns (body: nat, name: nat)
    requires WellFormedBlock(es)
    requires Reached(es) && Ends(p, start, PutExtensions(es, trailing))
    ensures body == start + Offset(es, SniIndex(es)) + 4
    ensures |FirstName(es).name| < 65536
    ensures LoadU8(p, body + 2) == Some(FirstName(es).nameType)
    ensures LoadU16(p, body + 3) == Some(|FirstName(es).name|)
    ensures name == body + 5 && Ends(p, name, FirstName(es).name + After(es, trailing))
  {
    var k := SniIndex(es);
    var off := SkipExtensions(p, start, es, k, trailing);
    assert es[k..][0] == es[k] && es[k..][1..] == es[k + 1..];
    var next := PutExtensions(es[k + 1..], trailing);
    body, name := SniBody(p, off, es[k], next);
  }

  lemma SniBody(p: Bytes, off: nat, e: Extension, rest: Bytes) returns (body: nat, name: nat)
    requires WellFormedExtension(e) && e.Sni? && Ends(p, off, PutExtension(e, rest))
    ensures body == off + 4
    ensures |e.list[0].name| < 65536
    ensures LoadU8(p, body + 2) == Some(e.list[0].nameType)
    ensures LoadU16(p, body + 3) == Some(|e.list[0].name|)
    ensures name == body + 5 && Ends(p, name, e.list[0].name + PutNames(e.list[1..], rest))
  {
    body, name := ExtensionHead(p, off, e, rest);
    name := EndsSplit(p, body, U16(NamesSize(e.list)), PutNames(e.list, rest));
    name := NameBytes(p, name, e.list[0], PutNames(e.list[1..], rest));
  }

  lemma ExpectedFromStart(start: nat, es: seq<Extension>)
    ensures Expected(start, 0, MAX_EXTENSIONS, es) ==
            if Reached(es) then Some(start + Offset(es, SniIndex(es)) + 4) else None
  {
  }

  lemma ScanResult(p: Bytes, exts: Span, es: seq<Extension>, trailing: Bytes)
    requires WellFormedBlock(es)
    requires exts.len == BlockSize(es) && Ends(p, exts.start, PutExtensions(es, trailing))
    ensures ScanExtensions(p, exts, 0, MAX_EXTENSIONS) == Expected(exts.start, 0, MAX_EXTENSIONS, es)
  {
    EncodingLaysOutHeads(p, exts.start, es, trailing);
    ScanFinds(p, exts, 0, MAX_EXTENSIONS, es);
  }

  /** The scan stops at the body of the first server_name extension, if it reaches it. */
  lemma {:induction false} ScanOfBlock(p: Bytes, exts: Span, es: seq<Extension>, trailing: Bytes)
    requires WellFormedBlock(es)
    requires exts.len == BlockSize(es) && Ends(p, exts.start, PutExtensions(es, trailing))
    ensures ScanExtensions(p, exts, 0, MAX_EXTENSIONS) ==
            if Reached(es) then Some(exts.start + Offset(es, SniIndex(es)) + 4) else None
  {
    ScanResult(p, exts, es, trailing);
    ExpectedFromStart(exts.start, es);
  }

  lemma HostNameAt(p: Bytes, body: nat, n: ServerName, after: Bytes)
    requires LoadU8(p, body + 2) == Some(n.nameType) && LoadU16(p, body + 3) == Some(|n.name|)
    requires Ends(p, body + 5, n.name + after)
    ensures HostName(p, body) ==
            if n.nameType == 0 && 0 < |n.name| < 128 && (|n.name| % 2 == 0 ==> after != [])
            then Some(Span(body + 5, |n.name|)) else None
  {
  }

  /** The block is scanned to the first server name of the first server_name extension. */
  lemma {:induction false} NameInEncodedBlock(p: Bytes, exts: Span, es: seq<Extension>, trailing: Bytes) returns (start: nat)
    requires WellFormedBlock(es)
    requires exts.len == BlockSize(es) && Ends(p, exts.start, PutExtensions(es, trailing))
    ensures NameInBlock(p, exts) ==
            if NameLoads(es, trailing) then Some(Span(start, |FirstName(es).name|)) else None
    ensures NameLoads(es, trailing) ==> Ends(p, start, FirstName(es).name + After(es, trailing))
  {
    ScanOfBlock(p, exts, es, trailing);
    if Reached(es) {
      var body;
      body, start := FirstNameAt(p, exts.start, es, trailing);
      NameAtBody(p, exts, body, start, es, trailing);
    } else {
      start := 0;
      NoBody(p, exts, es, trailing);
    }
  }

  lemma {:induction false} NameAtBody(p: Bytes, exts: Span, body: nat, start: nat, es: seq<Extension>, trailing: Bytes)
    requires WellFormedBlock(es) && Reached(es)
    requires ScanExtensions(p, exts, 0, MAX_EXTENSIONS) == Some(body) && start == body + 5
    requires LoadU8(p, body + 2) == Some(FirstName(es).nameType)
    requires LoadU16(p, body + 3) == Some(|FirstName(es).name|)
    requires Ends(p, start, FirstName(es).name + After(es, trailing))
    ensures NameInBlock(p, exts) ==
            if NameLoads(es, trailing) then Some(Span(start, |FirstName(es).name|)) else None
  {
    HostNameAt(p, body, FirstName(es), After(es, trailing));
  }

  lemma {:induction false} NoBody(p: Bytes, exts: Span, es: seq<Extension>, trailing: Bytes)
    requires WellFormedBlock(es) && !Reached(es)
    requires ScanExtensions(p, exts, 0, MAX_EXTENSIONS).None?
    ensures NameInBlock(p, exts).None? && !NameLoads(es, trailing)
  {
  }

  /** The block of an encoded frame, when the parser gets to it. */
  lemma BlockOfFrame(p: Bytes, f: Frame, size: nat, block: Bytes) returns (start: nat)
    requires WellFramed(f) && size < 65536
    requires p == f.link + (f.ip + (f.tcp + PutRecord(f.recordVersion, f.hello, size, block)))
    ensures FindBlock(p) == if ShortPrefix(f.hello) then Some(Span(start, size)) else None
    ensures Ends(p, start, block)
  {
    var record := PutRecord(f.recordVersion, f.hello, size, block);
    var tcp := IpHeader(p, f.link, f.ip, f.tcp + record);
    var rec := TcpHeader(p, tcp, f.tcp, record);
    start := HelloFields(p, rec, f.recordVersion, f.hello, size, block);
  }

  lemma LoadedFromBlock(p: Bytes, exts: Span, es: seq<Extension>, trailing: Bytes)
    requires WellFormedBlock(es)
    requires exts.len == BlockSize(es) && Ends(p, exts.start, PutExtensions(es, trailing))
    ensures InPacket(p, NameInBlock(p, exts))
    ensures Load(p, NameInBlock(p, exts)) == ExpectedLoad(es, trailing)
  {
    var start := NameInEncodedBlock(p, exts, es, trailing);
    if NameLoads(es, trailing) {
      LoadFirstName(p, start, es, trailing);
    }
  }

  lemma LoadFirstName(p: Bytes, start: nat, es: seq<Extension>, trailing: Bytes)
    requires WellFormedBlock(es) && NameLoads(es, trailing)
    requires Ends(p, start, FirstName(es).name + After(es, trailing))
    ensures var name := Some(Span(start, |FirstName(es).name|));
            InPacket(p, name) && Load(p, name) == ExpectedLoad(es, trailing)
  {
    RawNameAt(p, start, es, trailing);
  }

  function ExpectedLoad(es: seq<Extension>, trailing: Bytes): Option<Loaded>
    requires WellFormedBlock(es)
  {
    if NameLoads(es, trailing) then Some(Loaded(RawName(es, trailing), |FirstName(es).name|)) else None
  }

  lemma RawNameAt(p: Bytes, start: nat, es: seq<Extension>, trailing: Bytes)
    requires WellFormedBlock(es) && NameLoads(es, trailing)
    requires Ends(p, start, FirstName(es).name + After(es, trailing))
    ensures var end := start + ReadLen(|FirstName(es).name|);
            end <= |p| && p[start..end] == RawName(es, trailing)
  {
    var raw := RawName(es, trailing);
    var rest := FirstName(es).name + After(es, trailing);
    assert |raw| <= |rest|;
    forall i | 0 <= i < |raw|
      ensures p[start..start + |raw|][i] == raw[i]
    {
      assert rest[i] == p[start + i] && rest[i] == raw[i];
    }
  }

  /** What the classifier loads from an encoded ClientHello: the first server name of the
      first server_name extension, exactly when the message is within its bounds. */
  lemma LoadedFromFrame(f: Frame)
    requires WellFramed(f)
    ensures LoadedName(Packet(f)) ==
            if ShortPrefix(f.hello) then ExpectedLoad(f.hello.extensions, f.trailing) else None
  {
    var p := Packet(f);
    var es := f.hello.extensions;
    var start := BlockOfFrame(p, f, BlockSize(es), PutExtensions(es, f.trailing));
    NameFromBlock(p);
    if ShortPrefix(f.hello) {
      LoadedFromBlock(p, Span(start, BlockSize(es)), es, f.trailing);
    }
  }
}

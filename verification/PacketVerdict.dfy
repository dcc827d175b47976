/** Which packets are dropped, said of their bytes alone: where the headers, the handshake message
    and the name must stand, and which keys must be listed. */
module PacketVerdict {
  import opened ByteStrings
  import opened BlocklistKeys
  import opened SniParser

  /** The two bytes at i, high byte first. */
  function Word(p: Bytes, i: nat): nat
    requires i + 2 <= |p|
  {
    var hi: int, lo: int := p[i], p[i + 1];
    hi * 256 + lo
  }

  // ----- Section 3.1 of RFC 791, section 3 of RFC 8200, section 3.1 of RFC 9293

  /** An IPv4 header at ip, for TCP, that ends at tcp. */
  predicate Ipv4At(p: Bytes, ip: nat, tcp: nat) {
    ip + 9 < |p| && p[ip + 9] == 6 && p[ip] % 16 >= 5 && tcp == ip + p[ip] % 16 * 4
  }

  /** An IPv6 header at ip, for TCP, that ends at tcp. */
  predicate Ipv6At(p: Bytes, ip: nat, tcp: nat) {
    ip + 6 < |p| && p[ip + 6] == 6 && tcp == ip + 40
  }

  /** A packet that starts with the version of an IP header has no Ethernet header. */
  predicate TcpAt(p: Bytes, tcp: nat) {
    && p != []
    && if p[0] / 16 == 4 then Ipv4At(p, 0, tcp)
       else if p[0] / 16 == 6 then Ipv6At(p, 0, tcp)
       else
         && |p| >= 14
         && ((Word(p, 12) == 0x0800 && Ipv4At(p, 14, tcp)) || (Word(p, 12) == 0x86DD && Ipv6At(p, 14, tcp)))
  }

  /** The TCP payload starts at rec. */
  predicate PayloadAt(p: Bytes, tcp: nat, rec: nat) {
    TcpAt(p, tcp) && tcp + 12 < |p| && p[tcp + 12] / 16 >= 5 && rec == tcp + p[tcp + 12] / 16 * 4
  }

  // ----- Section 4.1.2 of RFC 8446

  /** A handshake record with a ClientHello at rec, whose extension block is exts. */
  predicate HelloAt(p: Bytes, rec: nat, exts: Span) {
    && rec + 43 < |p| && p[rec] == 22 && p[rec + 5] == 1
    && var sid := p[rec + 43];
       && sid <= 32 && rec + 46 + sid <= |p|
       && var cs := Word(p, rec + 44 + sid);
          && cs <= 512 && rec + 46 + sid + cs < |p|
          && var cp := p[rec + 46 + sid + cs];
             && cp <= 32 && rec + 49 + sid + cs + cp <= |p|
             && exts == Span(rec + 49 + sid + cs + cp, Word(p, rec + 47 + sid + cs + cp))
  }

  /** The header of an extension stands whole at this offset of the block. */
  predicate ExtensionAt(p: Bytes, exts: Span, cur: nat) {
    cur + 4 <= exts.len && exts.start + cur + 4 <= |p|
  }

  /** The extension at cur is not of type 0, and the next one starts within the limit. */
  predicate Linked(p: Bytes, exts: Span, cur: nat, next: nat) {
    && ExtensionAt(p, exts, cur) && Word(p, exts.start + cur) != 0
    && next == cur + 4 + Word(p, exts.start + cur + 2) <= 1024
  }

  /** The extensions at these offsets follow one another from the first to the last, and the last
      is the first of type 0. */
  predicate Leads(p: Bytes, exts: Span, offs: seq<nat>) {
    && offs != []
    && (forall k :: 0 <= k < |offs| - 1 ==> Linked(p, exts, offs[k], offs[k + 1]))
    && ExtensionAt(p, exts, offs[|offs| - 1]) && Word(p, exts.start + offs[|offs| - 1]) == 0
  }

  /** The first entry of the server name list in the extension body is this host name, with the
      byte after it if its length is even. */
  predicate HostNameAt(p: Bytes, body: nat, name: Span) {
    && body + 5 <= |p| && p[body + 2] == 0
    && name == Span(body + 5, Word(p, body + 3))
    && 0 < name.len < 128 && name.start + name.len + 1 - name.len % 2 <= |p|
  }

  /** The extensions up to that of type 0 are at most 64, and the first is at the start of the block. */
  predicate ServerNameIn(p: Bytes, exts: Span, offs: seq<nat>, name: Span) {
    Leads(p, exts, offs) && offs[0] == 0 && |offs| <= 64 && HostNameAt(p, exts.start + offs[|offs| - 1] + 4, name)
  }

  ghost predicate Carries(p: Bytes, name: Span) {
    exists tcp: nat, rec: nat, exts: Span, offs: seq<nat> ::
      PayloadAt(p, tcp, rec) && HelloAt(p, rec, exts) && ServerNameIn(p, exts, offs, name)
  }

  // ----- The parser finds exactly that

  lemma TcpIffFound(p: Bytes, tcp: nat)
    ensures FindTcp(p) == Some(tcp) <==> TcpAt(p, tcp)
  {
  }

  lemma RecordIffFound(p: Bytes, tcp: nat, rec: nat)
    ensures FindTcp(p) == Some(tcp) && FindRecord(p, tcp) == Some(rec) <==> PayloadAt(p, tcp, rec)
  {
    TcpIffFound(p, tcp);
  }

  lemma HelloIffFound(p: Bytes, rec: nat, exts: Span)
    ensures FindExtensions(p, rec) == Some(exts) <==> HelloAt(p, rec, exts)
  {
  }

  lemma NameIffFound(p: Bytes, body: nat, name: Span)
    ensures HostName(p, body) == Some(name) <==> HostNameAt(p, body, name)
  {
  }

  lemma {:induction false} ScanLeads(p: Bytes, exts: Span, cur: nat, rounds: nat) returns (offs: seq<nat>)
    requires ScanExtensions(p, exts, cur, rounds).Some?
    ensures Leads(p, exts, offs) && offs[0] == cur && |offs| <= rounds
    ensures ScanExtensions(p, exts, cur, rounds) == Some(exts.start + offs[|offs| - 1] + 4)
    decreases rounds
  {
    offs := [cur];
    if Word(p, exts.start + cur) != 0 {
      var rest := ScanLeads(p, exts, cur + 4 + Word(p, exts.start + cur + 2), rounds - 1);
      LeadsOn(p, exts, cur, rest);
      offs := [cur] + rest;
    }
  }

  lemma LeadsOn(p: Bytes, exts: Span, cur: nat, rest: seq<nat>)
    requires Leads(p, exts, rest) && Linked(p, exts, cur, rest[0])
    ensures Leads(p, exts, [cur] + rest)
  {
    var offs := [cur] + rest;
    forall k | 0 <= k < |offs| - 1
      ensures Linked(p, exts, offs[k], offs[k + 1])
    {
      if k > 0 {
        assert Linked(p, exts, rest[k - 1], rest[k - 1 + 1]);
      }
    }
  }

  lemma LeadsAfter(p: Bytes, exts: Span, offs: seq<nat>, rest: seq<nat>)
    requires Leads(p, exts, offs) && |offs| > 1 && rest == offs[1..]
    ensures Leads(p, exts, rest) && rest[|rest| - 1] == offs[|offs| - 1]
    ensures Linked(p, exts, offs[0], rest[0])
  {
    assert Linked(p, exts, offs[0], offs[0 + 1]);
    forall k | 0 <= k < |rest| - 1
      ensures Linked(p, exts, rest[k], rest[k + 1])
    {
      assert Linked(p, exts, offs[k + 1], offs[k + 1 + 1]);
    }
  }

  lemma {:induction false} LeadsScan(p: Bytes, exts: Span, offs: seq<nat>, rounds: nat)
    requires Leads(p, exts, offs) && |offs| <= rounds
    ensures ScanExtensions(p, exts, offs[0], rounds) == Some(exts.start + offs[|offs| - 1] + 4)
    decreases rounds
  {
    if |offs| > 1 {
      var rest := offs[1..];
      LeadsAfter(p, exts, offs, rest);
      LeadsScan(p, exts, rest, rounds - 1);
    }
  }

  lemma BlockIffFound(p: Bytes, exts: Span)
    ensures FindBlock(p) == Some(exts) <==>
            exists tcp: nat, rec: nat :: PayloadAt(p, tcp, rec) && HelloAt(p, rec, exts)
  {
    if FindBlock(p) == Some(exts) {
      var tcp := FindTcp(p).value;
      var rec := FindRecord(p, tcp).value;
      RecordIffFound(p, tcp, rec);
      HelloIffFound(p, rec, exts);
    }
    forall tcp: nat, rec: nat | PayloadAt(p, tcp, rec) && HelloAt(p, rec, exts)
      ensures FindBlock(p) == Some(exts)
    {
      RecordIffFound(p, tcp, rec);
      HelloIffFound(p, rec, exts);
    }
  }

  lemma NameInBlockIff(p: Bytes, exts: Span, name: Span)
    ensures NameInBlock(p, exts) == Some(name) <==> exists offs :: ServerNameIn(p, exts, offs, name)
  {
    if NameInBlock(p, exts) == Some(name) {
      var offs := ScanLeads(p, exts, 0, 64);
      NameIffFound(p, exts.start + offs[|offs| - 1] + 4, name);
      assert ServerNameIn(p, exts, offs, name);
    }
    forall offs | ServerNameIn(p, exts, offs, name)
      ensures NameInBlock(p, exts) == Some(name)
    {
      LeadsScan(p, exts, offs, 64);
      NameIffFound(p, exts.start + offs[|offs| - 1] + 4, name);
    }
  }

  /** The name that the parser finds is the name that the packet carries. */
  lemma CarriesIffFound(p: Bytes, name: Span)
    ensures FindName(p) == Some(name) <==> Carries(p, name)
  {
    if FindName(p) == Some(name) {
      var exts := FindBlock(p).value;
      BlockIffFound(p, exts);
      var tcp: nat, rec: nat :| PayloadAt(p, tcp, rec) && HelloAt(p, rec, exts);
      NameInBlockIff(p, exts, name);
      var offs :| ServerNameIn(p, exts, offs, name);
      assert Carries(p, name);
    }
    if Carries(p, name) {
      var tcp: nat, rec: nat, exts: Span, offs: seq<nat> :|
        PayloadAt(p, tcp, rec) && HelloAt(p, rec, exts) && ServerNameIn(p, exts, offs, name);
      BlockIffFound(p, exts);
      NameInBlockIff(p, exts, name);
    }
  }

  // ----- The verdict

  /** The dots of the packet from one index up to another. */
  function Dots(p: Bytes, lo: nat, hi: nat): set<nat>
    requires hi <= |p|
  {
    set j: nat | lo <= j < hi && p[j] == 46
  }

  lemma {:induction false} DotsCounted(p: Bytes, lo: nat, name: Bytes, n: nat)
    requires n <= |name| && lo + |name| <= |p| && name == p[lo..lo + |name|]
    ensures |Dots(p, lo, lo + n)| == DotCount(name, n)
    decreases n
  {
    if n == 0 {
      assert Dots(p, lo, lo) == {};
    } else {
      DotsCounted(p, lo, name, n - 1);
      var i := lo + n - 1;
      assert Dots(p, lo, lo + n) == Dots(p, lo, i) + if p[i] == 46 then {i} else {};
    }
  }

  /** The byte at i is one of the first ten dots from lo on, and what stands from it to hi is listed. */
  ghost predicate SuffixHit(p: Bytes, lo: nat, i: nat, hi: nat, blocklist: set<Key>)
    requires i < hi <= |p|
  {
    p[i] == 46 && |Dots(p, lo, i)| < 10 && KeyOf(p[i..hi]) in blocklist
  }

  /** The key of the name with its extra byte is listed, or that of the rest of the name from one
      of its first ten dots on. */
  ghost predicate Hit(p: Bytes, name: Span, blocklist: set<Key>) {
    var end := name.start + name.len;
    && end + 1 - name.len % 2 <= |p|
    && (KeyOf(p[name.start..end + 1 - name.len % 2]) in blocklist || AnySuffixHit(p, name.start, end, blocklist))
  }

  lemma SuffixHitIff(p: Bytes, lo: nat, name: Bytes, k: nat, blocklist: set<Key>)
    requires k < |name| && lo + |name| <= |p| && name == p[lo..lo + |name|]
    ensures SuffixHit(p, lo, lo + k, lo + |name|, blocklist) <==>
            name[k] == DOT && DotCount(name, k) < MAX_SUFFIXES && KeyOf(name[k..]) in blocklist
  {
    DotsCounted(p, lo, name, k);
    assert name[k..] == p[lo + k..lo + |name|];
  }

  ghost predicate AnySuffixHit(p: Bytes, lo: nat, hi: nat, blocklist: set<Key>)
    requires hi <= |p|
  {
    exists i :: lo <= i < hi && SuffixHit(p, lo, i, hi, blocklist)
  }

  lemma SuffixesHitIff(p: Bytes, lo: nat, hi: nat, name: Bytes, blocklist: set<Key>)
    requires lo <= hi <= |p| && name == p[lo..hi]
    ensures SuffixListed(name, blocklist) <==> AnySuffixHit(p, lo, hi, blocklist)
  {
    if SuffixListed(name, blocklist) {
      var k :| 0 <= k < |name| && name[k] == DOT && DotCount(name, k) < MAX_SUFFIXES && KeyOf(name[k..]) in blocklist;
      SuffixHitIff(p, lo, name, k, blocklist);
      var i := lo + k;
      assert SuffixHit(p, lo, i, hi, blocklist);
    }
    forall i | lo <= i < hi && SuffixHit(p, lo, i, hi, blocklist)
      ensures SuffixListed(name, blocklist)
    {
      SuffixHitIff(p, lo, name, i - lo, blocklist);
    }
  }

  lemma HitIffListed(p: Bytes, name: Span, blocklist: set<Key>, raw: Bytes, end: nat)
    requires InPacket(p, Some(name)) && end == name.start + name.len
    requires raw == p[name.start..name.start + ReadLen(name.len)]
    ensures Hit(p, name, blocklist) <==> NameListed(raw, name.len, blocklist)
  {
    var own := raw[..name.len];
    assert own == p[name.start..end];
    SuffixesHitIff(p, name.start, end, own, blocklist);
  }

  lemma DroppedByName(p: Bytes, name: Span, blocklist: set<Key>, raw: Bytes)
    requires FindName(p) == Some(name) && InPacket(p, Some(name))
    requires raw == p[name.start..name.start + ReadLen(name.len)]
    ensures Dropped(p, blocklist) <==> NameListed(raw, name.len, blocklist)
  {
    assert LoadedName(p) == Some(Loaded(raw, name.len));
  }

  lemma NotFoundNotDropped(p: Bytes, blocklist: set<Key>)
    requires FindName(p) == None
    ensures !Dropped(p, blocklist)
  {
    assert LoadedName(p) == None;
  }

  lemma DroppedIffHit(p: Bytes, name: Span, blocklist: set<Key>)
    requires FindName(p) == Some(name)
    ensures Dropped(p, blocklist) <==> Hit(p, name, blocklist)
  {
    NameInPacket(p);
    var raw := p[name.start..name.start + ReadLen(name.len)];
    DroppedByName(p, name, blocklist, raw);
    HitIffListed(p, name, blocklist, raw, name.start + name.len);
  }

  /** A packet is dropped exactly when it carries a name that hits the blocklist. */
  lemma DroppedIffCarried(p: Bytes, blocklist: set<Key>)
    ensures Dropped(p, blocklist) <==> exists name :: Carries(p, name) && Hit(p, name, blocklist)
  {
    forall name | Carries(p, name)
      ensures FindName(p) == Some(name)
    {
      CarriesIffFound(p, name);
    }
    if FindName(p).Some? {
      var name := FindName(p).value;
      CarriesIffFound(p, name);
      DroppedIffHit(p, name, blocklist);
    } else {
      NotFoundNotDropped(p, blocklist);
    }
  }

  // ----- What passes

  /** A dropped packet has a listed key in its first 1919 bytes. */
  lemma DroppedHasListedKey(p: Bytes, blocklist: set<Key>) returns (lo: nat, hi: nat)
    requires Dropped(p, blocklist)
    ensures lo < hi <= |p| && hi <= 1919 && KeyOf(p[lo..hi]) in blocklist
  {
    DroppedIffCarried(p, blocklist);
    var name :| Carries(p, name) && Hit(p, name, blocklist);
    CarriesIffFound(p, name);
    NameInPacket(p);
    lo, hi := HitHasKey(p, name, blocklist);
  }

  lemma HitHasKey(p: Bytes, name: Span, blocklist: set<Key>) returns (lo: nat, hi: nat)
    requires Hit(p, name, blocklist)
    ensures name.start <= lo < hi <= name.start + ReadLen(name.len) && hi <= |p| && KeyOf(p[lo..hi]) in blocklist
  {
    var end := name.start + name.len;
    lo, hi := name.start, end + 1 - name.len % 2;
    if KeyOf(p[lo..hi]) !in blocklist {
      lo :| name.start <= lo < end && SuffixHit(p, name.start, lo, end, blocklist);
      hi := end;
    }
  }

  lemma NothingListedNothingDropped(p: Bytes)
    ensures !Dropped(p, {})
  {
    if Dropped(p, {}) {
      var lo, hi := DroppedHasListedKey(p, {});
      assert false;
    }
  }

  /** The bytes that say that an IP header for TCP is there are missing or say something else. */
  predicate NoTcp(p: Bytes) {
    || p == []
    || (p[0] / 16 == 4 && (|p| <= 9 || p[9] != 6))
    || (p[0] / 16 == 6 && (|p| <= 6 || p[6] != 6))
    || (p[0] / 16 != 4 && p[0] / 16 != 6
        && (|| |p| < 14
            || (Word(p, 12) != 0x0800 && Word(p, 12) != 0x86DD)
            || (Word(p, 12) == 0x0800 && (|p| <= 23 || p[23] != 6))
            || (Word(p, 12) == 0x86DD && (|p| <= 20 || p[20] != 6))))
  }

  /** What is not TCP over IP passes, whatever is listed. */
  lemma NoTcpPasses(p: Bytes, blocklist: set<Key>)
    requires NoTcp(p)
    ensures !Dropped(p, blocklist)
  {
    DroppedIffCarried(p, blocklist);
    forall tcp: nat
      ensures !TcpAt(p, tcp)
    {
    }
  }

  /** TCP whose payload does not start with a handshake record and a ClientHello passes. */
  lemma NoHelloPasses(p: Bytes, tcp: nat, rec: nat, blocklist: set<Key>)
    requires PayloadAt(p, tcp, rec) && (|p| <= rec + 5 || p[rec] != 22 || p[rec + 5] != 1)
    ensures !Dropped(p, blocklist)
  {
    DroppedIffCarried(p, blocklist);
    forall tcp': nat, rec': nat | PayloadAt(p, tcp', rec')
      ensures tcp' == tcp && rec' == rec
    {
      RecordIffFound(p, tcp, rec);
      RecordIffFound(p, tcp', rec');
    }
  }

  /** A UDP datagram, byte for byte. */
  lemma DatagramPasses(blocklist: set<Key>)
    ensures !Dropped([0x45, 0, 0, 28, 0, 0, 0, 0, 64, 17, 0, 0, 10, 0, 0, 1, 10, 0, 0, 2, 4, 0, 0, 53, 0, 8, 0, 0],
                     blocklist)
  {
    var p: Bytes := [0x45, 0, 0, 28, 0, 0, 0, 0, 64, 17, 0, 0, 10, 0, 0, 1, 10, 0, 0, 2, 4, 0, 0, 53, 0, 8, 0, 0];
    assert p[0] == 0x45 && p[9] == 17;
    NoTcpPasses(p, blocklist);
  }
}

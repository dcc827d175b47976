/** Where the SNI classifier finds a host name in a packet, and which names it blocks. */
module SniParser {
  import opened ByteStrings
  import opened BlocklistKeys

  /** The bytes packet[start..start + len]. */
  datatype Span = Span(start: nat, len: nat)

  const ETHERTYPE_IPV4 := 0x0800
  const ETHERTYPE_IPV6 := 0x86DD
  const PROTO_TCP := 6
  const MAX_EXTENSIONS: nat := 64
  const MAX_EXTENSION_OFFSET: nat := 1024
  const MAX_SUFFIXES: nat := 10

  /** No byte at this index or beyond is ever loaded. */
  const LOAD_BOUND: nat := 1919

  function Ipv4Payload(p: Bytes, ip: nat): Option<nat> {
    var verIhl :- LoadU8(p, ip);
    var proto :- LoadU8(p, ip + 9);
    if verIhl % 16 < 5 || proto != PROTO_TCP then None else Some(ip + verIhl % 16 * 4)
  }

  function Ipv6Payload(p: Bytes, ip: nat): Option<nat> {
    var proto :- LoadU8(p, ip + 6);
    if proto != PROTO_TCP then None else Some(ip + 40)
  }

  /** The offset of the TCP header. */
  function FindTcp(p: Bytes): Option<nat> {
    var first :- LoadU8(p, 0);
    if first / 16 == 4 then Ipv4Payload(p, 0)
    else if first / 16 == 6 then Ipv6Payload(p, 0)
    else
      var etherType :- LoadU16(p, 12);
      if etherType == ETHERTYPE_IPV4 then Ipv4Payload(p, 14)
      else if etherType == ETHERTYPE_IPV6 then Ipv6Payload(p, 14)
      else None
  }

  /** The offset of the TLS record, given the offset of the TCP header. */
  function FindRecord(p: Bytes, tcp: nat): Option<nat> {
    var doff :- LoadU8(p, tcp + 12);
    if doff / 16 < 5 then None else Some(tcp + doff / 16 * 4)
  }

  /** The extension block of the ClientHello in the record at offset rec. */
  function FindExtensions(p: Bytes, rec: nat): Option<Span> {
    var contentType :- LoadU8(p, rec);
    if contentType != 22 then None else
    var hsType :- LoadU8(p, rec + 5);
    if hsType != 1 then None else
    var sid :- LoadU8(p, rec + 43);
    if sid > 32 then None else
    var cs :- LoadU16(p, rec + 44 + sid);
    if cs > 512 then None else
    var cp :- LoadU8(p, rec + 46 + sid + cs);
    if cp > 32 then None else
    var len :- LoadU16(p, rec + 47 + sid + cs + cp);
    Some(Span(rec + 49 + sid + cs + cp, len))
  }

  /** The offset of the body of the first type-0 extension at or after cur,
      looking at no more than the given number of extensions. */
  function ScanExtensions(p: Bytes, exts: Span, cur: nat, rounds: nat): Option<nat>
    decreases rounds, p
  {
    if rounds == 0 || cur + 4 > exts.len then None else
    var kind :- LoadU16(p, exts.start + cur);
    var len :- LoadU16(p, exts.start + cur + 2);
    if kind == 0 then Some(exts.start + cur + 4)
    else if cur + 4 + len > MAX_EXTENSION_OFFSET then None
    else ScanExtensions(p, exts, cur + 4 + len, rounds - 1)
  }

  /** `len | 1`: the number of bytes loaded for a name of length len. */
  function ReadLen(len: nat): nat {
    if len % 2 == 0 then len + 1 else len
  }

  /** The first host name of the server name list at offset body. */
  function HostName(p: Bytes, body: nat): Option<Span> {
    var nameType :- LoadU8(p, body + 2);
    if nameType != 0 then None else
    var len :- LoadU16(p, body + 3);
    if 0 < len < 128 && body + 5 + ReadLen(len) <= |p| then Some(Span(body + 5, len)) else None
  }

  /** The extension block of the ClientHello that the packet carries. */
  function FindBlock(p: Bytes): Option<Span> {
    var tcp :- FindTcp(p);
    var rec :- FindRecord(p, tcp);
    FindExtensions(p, rec)
  }

  /** The first host name in the first type-0 extension of the block. */
  function NameInBlock(p: Bytes, exts: Span): Option<Span> {
    var body :- ScanExtensions(p, exts, 0, MAX_EXTENSIONS);
    HostName(p, body)
  }

  /** The host name the classifier judges, if it gets that far. */
  function FindName(p: Bytes): Option<Span> {
    var exts :- FindBlock(p);
    NameInBlock(p, exts)
  }

  /** The number of dots in s[..n]. */
  function DotCount(s: Bytes, n: nat): (c: nat)
    requires n <= |s|
    ensures c <= n
  {
    if n == 0 then 0 else DotCount(s, n - 1) + if s[n - 1] == DOT then 1 else 0
  }

  /** One of the first ten dots of the name starts a listed suffix. */
  ghost predicate SuffixListed(name: Bytes, blocklist: set<Key>) {
    exists i :: 0 <= i < |name| && name[i] == DOT && DotCount(name, i) < MAX_SUFFIXES && KeyOf(name[i..]) in blocklist
  }

  /** What the classifier decides about a name of length len when the bytes it loaded are raw. */
  ghost predicate NameListed(raw: Bytes, len: nat, blocklist: set<Key>)
    requires len <= |raw|
  {
    KeyOf(raw) in blocklist || SuffixListed(raw[..len], blocklist)
  }

  /** The bytes loaded for a name, and how many of them are the name itself. */
  datatype Loaded = Loaded(raw: Bytes, len: nat)

  predicate InPacket(p: Bytes, name: Option<Span>) {
    name.Some? ==> 0 < name.value.len < 128 && name.value.start + ReadLen(name.value.len) <= |p|
  }

  function Load(p: Bytes, name: Option<Span>): (r: Option<Loaded>)
    requires InPacket(p, name)
    ensures r.Some? ==> 0 < r.value.len < 128 && |r.value.raw| == ReadLen(r.value.len)
  {
    if name.None? then None
    else
      var span := name.value;
      Some(Loaded(p[span.start..span.start + ReadLen(span.len)], span.len))
  }

  function LoadedName(p: Bytes): Option<Loaded> {
    assert InPacket(p, FindName(p)) by { NameInPacket(p); }
    Load(p, FindName(p))
  }

  ghost predicate Listed(name: Option<Loaded>, blocklist: set<Key>) {
    name.Some? && name.value.len <= |name.value.raw| && NameListed(name.value.raw, name.value.len, blocklist)
  }

  /** The packet is dropped. */
  ghost predicate Dropped(p: Bytes, blocklist: set<Key>) {
    Listed(LoadedName(p), blocklist)
  }

  /** A located name was loaded whole, fits the key buffer, and lies below the load bound. */
  lemma NameInPacket(p: Bytes)
    ensures InPacket(p, FindName(p))
    ensures FindName(p).Some? ==> FindName(p).value.start + ReadLen(FindName(p).value.len) <= LOAD_BOUND
  {
    BlockStart(p);
    if FindBlock(p).Some? {
      NameInBlockBounds(p, FindBlock(p).value);
    }
  }

  lemma NameInBlockBounds(p: Bytes, exts: Span)
    ensures InPacket(p, NameInBlock(p, exts))
    ensures var name := NameInBlock(p, exts);
            name.Some? ==> name.value.start + ReadLen(name.value.len) <= exts.start + 1160
  {
    ScanStaysBelow(p, exts, 0, MAX_EXTENSIONS);
  }

  lemma NameFromBlock(p: Bytes)
    ensures FindName(p) == if FindBlock(p).Some? then NameInBlock(p, FindBlock(p).value) else None
  {
  }

  lemma ExtensionsStart(p: Bytes, rec: nat)
    ensures FindExtensions(p, rec).Some? ==> FindExtensions(p, rec).value.start <= rec + 625
  {
  }

  lemma TcpStart(p: Bytes)
    ensures FindTcp(p).Some? ==> FindTcp(p).value <= 74
  {
  }

  lemma BlockStart(p: Bytes)
    ensures FindBlock(p).Some? ==> FindBlock(p).value.start <= 759
  {
    TcpStart(p);
    var tcp := FindTcp(p);
    if tcp.Some? {
      var rec := FindRecord(p, tcp.value);
      if rec.Some? {
        ExtensionsStart(p, rec.value);
      }
    }
  }

  lemma {:induction false} ScanStaysBelow(p: Bytes, exts: Span, cur: nat, rounds: nat)
    requires cur <= MAX_EXTENSION_OFFSET
    ensures var body := ScanExtensions(p, exts, cur, rounds);
            body.Some? ==> exts.start <= body.value <= exts.start + MAX_EXTENSION_OFFSET + 4
    decreases rounds
  {
    if rounds > 0 && cur + 4 <= exts.len {
      var len := LoadU16(p, exts.start + cur + 2);
      if len.Some? && cur + 4 + len.value <= MAX_EXTENSION_OFFSET {
        ScanStaysBelow(p, exts, cur + 4 + len.value, rounds - 1);
      }
    }
  }

  lemma {:induction false} ScanAgrees(p: Bytes, q: Bytes, exts: Span, cur: nat, rounds: nat, lo: nat, hi: nat)
    requires SameBetween(p, q, lo, hi) && lo <= exts.start
    requires cur <= MAX_EXTENSION_OFFSET && exts.start + MAX_EXTENSION_OFFSET + 4 <= hi
    ensures ScanExtensions(p, exts, cur, rounds) == ScanExtensions(q, exts, cur, rounds)
    decreases rounds
  {
    LoadsAgree(p, q, lo, hi, exts.start + cur);
    LoadsAgree(p, q, lo, hi, exts.start + cur + 2);
    if rounds > 0 && cur + 4 <= exts.len {
      var len := LoadU16(p, exts.start + cur + 2);
      if len.Some? && cur + 4 + len.value <= MAX_EXTENSION_OFFSET {
        ScanAgrees(p, q, exts, cur + 4 + len.value, rounds - 1, lo, hi);
      }
    }
  }

  /** The TCP header is found by looking at bytes before it. */
  lemma TcpAgrees(p: Bytes, q: Bytes, hi: nat)
    requires SameBetween(p, q, 0, hi)
    requires hi >= 24 || (FindTcp(p).Some? && FindTcp(p).value <= hi)
    ensures FindTcp(p) == FindTcp(q)
  {
    LoadsAgree(p, q, 0, hi, 0);
    LoadsAgree(p, q, 0, hi, 6);
    LoadsAgree(p, q, 0, hi, 9);
    LoadsAgree(p, q, 0, hi, 12);
    LoadsAgree(p, q, 0, hi, 14);
    LoadsAgree(p, q, 0, hi, 20);
    LoadsAgree(p, q, 0, hi, 23);
  }

  lemma ExtensionsAgree(p: Bytes, q: Bytes, rec: nat, lo: nat, hi: nat)
    requires SameBetween(p, q, lo, hi) && lo <= rec && rec + 625 <= hi
    ensures FindExtensions(p, rec) == FindExtensions(q, rec)
  {
    LoadsAgree(p, q, lo, hi, rec);
    LoadsAgree(p, q, lo, hi, rec + 5);
    LoadsAgree(p, q, lo, hi, rec + 43);
    var sid := LoadU8(p, rec + 43);
    if sid.Some? && sid.value <= 32 {
      LoadsAgree(p, q, lo, hi, rec + 44 + sid.value);
      var cs := LoadU16(p, rec + 44 + sid.value);
      if cs.Some? && cs.value <= 512 {
        LoadsAgree(p, q, lo, hi, rec + 46 + sid.value + cs.value);
        var cp := LoadU8(p, rec + 46 + sid.value + cs.value);
        if cp.Some? && cp.value <= 32 {
          LoadsAgree(p, q, lo, hi, rec + 47 + sid.value + cs.value + cp.value);
        }
      }
    }
  }

  /** From the same TCP header the same name is loaded, when the bytes after the ports agree. */
  lemma NameAfterTcpAgrees(p: Bytes, q: Bytes, tcp: nat)
    requires FindTcp(p) == Some(tcp) && FindTcp(q) == Some(tcp) && SameBetween(p, q, tcp + 4, LOAD_BOUND)
    ensures LoadedName(p) == LoadedName(q)
  {
    BlockAfterTcpAgrees(p, q, tcp);
    BlockStart(p);
    NameFromBlock(p);
    NameFromBlock(q);
    if FindBlock(p).Some? {
      NameAgrees(p, q, FindBlock(p).value, tcp + 4);
      NameInPacket(p);
      NameInPacket(q);
      LoadAgrees(p, q, FindName(p), tcp + 4);
    }
  }

  lemma BlockAfterTcpAgrees(p: Bytes, q: Bytes, tcp: nat)
    requires FindTcp(p) == Some(tcp) && FindTcp(q) == Some(tcp) && SameBetween(p, q, tcp + 4, LOAD_BOUND)
    ensures FindBlock(p) == FindBlock(q)
    ensures FindBlock(p).Some? ==> tcp + 4 <= FindBlock(p).value.start
  {
    TcpStart(p);
    LoadsAgree(p, q, tcp + 4, LOAD_BOUND, tcp + 12);
    var rec := FindRecord(p, tcp);
    if rec.Some? {
      ExtensionsAgree(p, q, rec.value, tcp + 4, LOAD_BOUND);
      ExtensionsStart(p, rec.value);
    }
  }

  lemma HostNameAgrees(p: Bytes, q: Bytes, body: nat, lo: nat)
    requires SameBetween(p, q, lo, LOAD_BOUND) && lo <= body && body + 132 <= LOAD_BOUND
    ensures HostName(p, body) == HostName(q, body)
  {
    LoadsAgree(p, q, lo, LOAD_BOUND, body + 2);
    LoadsAgree(p, q, lo, LOAD_BOUND, body + 3);
    var len := LoadU16(p, body + 3);
    if len.Some? && 0 < len.value < 128 {
      LoadsAgree(p, q, lo, LOAD_BOUND, body + 4 + ReadLen(len.value));
    }
  }

  lemma NameAgrees(p: Bytes, q: Bytes, exts: Span, lo: nat)
    requires SameBetween(p, q, lo, LOAD_BOUND) && lo <= exts.start <= 759
    ensures NameInBlock(p, exts) == NameInBlock(q, exts)
    ensures NameInBlock(p, exts).Some? ==> lo <= NameInBlock(p, exts).value.start
  {
    ScanAgrees(p, q, exts, 0, MAX_EXTENSIONS, lo, LOAD_BOUND);
    ScanStaysBelow(p, exts, 0, MAX_EXTENSIONS);
    var body := ScanExtensions(p, exts, 0, MAX_EXTENSIONS);
    if body.Some? {
      HostNameAgrees(p, q, body.value, lo);
    }
  }

  lemma LoadAgrees(p: Bytes, q: Bytes, name: Option<Span>, lo: nat)
    requires InPacket(p, name) && InPacket(q, name) && SameBetween(p, q, lo, LOAD_BOUND)
    requires name.Some? ==> lo <= name.value.start && name.value.start + ReadLen(name.value.len) <= LOAD_BOUND
    ensures Load(p, name) == Load(q, name)
  {
    if name.Some? {
      var start, end := name.value.start, name.value.start + ReadLen(name.value.len);
      forall i | start <= i < end
        ensures p[i] == q[i]
      {
        assert LoadU8(p, i) == LoadU8(q, i);
      }
      assert p[start..end] == q[start..end];
    }
  }

  lemma LoadedNameAgrees(p: Bytes, q: Bytes)
    requires SameBetween(p, q, 0, LOAD_BOUND)
    ensures LoadedName(p) == LoadedName(q)
  {
    TcpAgrees(p, q, LOAD_BOUND);
    var tcp := FindTcp(p);
    if tcp.Some? {
      assert SameBetween(p, q, tcp.value + 4, LOAD_BOUND);
      NameAfterTcpAgrees(p, q, tcp.value);
    }
  }

  /** Two packets that agree below index 1919 get the same verdict, whatever follows. */
  lemma VerdictReadsPrefix(p: Bytes, q: Bytes, blocklist: set<Key>)
    requires SameBetween(p, q, 0, LOAD_BOUND)
    ensures Dropped(p, blocklist) <==> Dropped(q, blocklist)
  {
    LoadedNameAgrees(p, q);
  }

  /** The verdict does not depend on the two ports, the first four bytes of the TCP header. */
  lemma VerdictIgnoresPorts(p: Bytes, q: Bytes, tcp: nat, blocklist: set<Key>)
    requires FindTcp(p) == Some(tcp)
    requires |p| == |q| && forall i :: 0 <= i < |p| && !(tcp <= i < tcp + 4) ==> p[i] == q[i]
    ensures Dropped(p, blocklist) <==> Dropped(q, blocklist)
  {
    assert SameBetween(p, q, 0, tcp) && SameBetween(p, q, tcp + 4, LOAD_BOUND);
    TcpAgrees(p, q, tcp);
    NameAfterTcpAgrees(p, q, tcp);
  }

  lemma {:induction false} DotCountMonotone(s: Bytes, m: nat, n: nat)
    requires m <= n <= |s|
    ensures DotCount(s, m) <= DotCount(s, n)
    ensures m < n && s[m] == DOT ==> DotCount(s, m) < DotCount(s, n)
  {
    if m < n {
      DotCountMonotone(s, m, n - 1);
    }
  }

  lemma {:induction false} NoDotsBetween(s: Bytes, m: nat, n: nat)
    requires m <= n <= |s| && forall i :: m <= i < n ==> s[i] != DOT
    ensures DotCount(s, m) == DotCount(s, n)
  {
    if m < n {
      NoDotsBetween(s, m, n - 1);
    }
  }
}

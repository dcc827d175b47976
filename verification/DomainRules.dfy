/** What the key-level decisions of the classifier mean for the listed domains, for
    every encoded ClientHello. */
module DomainRules {
  import opened ByteStrings
  import opened BlocklistKeys
  import opened SniParser
  import opened ClientHello

  /** One of the first limit dots of the name starts a listed suffix. */
  ghost predicate DotSuffixListed(name: Bytes, domains: set<Bytes>, limit: nat) {
    exists i :: 0 <= i < |name| && name[i] == DOT && DotCount(name, i) < limit && name[i..] in domains
  }

  /** The rule the classifier is for: the name, or one of its dot-suffixes, is listed. */
  ghost predicate ListedOrSuffix(name: Bytes, domains: set<Bytes>) {
    name in domains || exists i :: 0 <= i < |name| && name[i] == DOT && name[i..] in domains
  }

  /** The string that the exact match compares: the loaded bytes without a final zero byte. */
  function Compared(raw: Bytes, len: nat): Bytes
    requires len <= |raw| <= len + 1
  {
    if |raw| > len && raw[len] == 0 then raw[..len] else raw
  }

  /** Keys decide as the names they stand for. */
  lemma NameListedMeaning(raw: Bytes, len: nat, domains: set<Bytes>)
    requires 0 < len < 128 && len <= |raw| <= len + 1
    requires NulFree(raw[..len]) && AllStorable(domains)
    ensures NameListed(raw, len, KeysOf(domains)) <==>
            Compared(raw, len) in domains || DotSuffixListed(raw[..len], domains, MAX_SUFFIXES)
  {
    var name := raw[..len];
    if |raw| > len && raw[len] == 0 {
      assert raw == name + [0];
      KeyOfTrailingZero(name);
    } else {
      assert NulFree(raw) by {
        forall i | 0 <= i < |raw|
          ensures raw[i] != 0
        {
          assert i < len ==> name[i] == raw[i];
        }
      }
    }
    LookupIsMembership(Compared(raw, len), domains);
    SuffixMeaning(name, domains);
  }

  lemma SuffixMeaning(name: Bytes, domains: set<Bytes>)
    requires Storable(name) && AllStorable(domains)
    ensures SuffixListed(name, KeysOf(domains)) <==> DotSuffixListed(name, domains, MAX_SUFFIXES)
  {
    forall i | 0 <= i < |name|
      ensures KeyOf(name[i..]) in KeysOf(domains) <==> name[i..] in domains
    {
      LookupIsMembership(name[i..], domains);
    }
  }

  /** Few dots: the limit on the walk does not matter. */
  lemma FewDots(name: Bytes, domains: set<Bytes>)
    requires DotCount(name, |name|) <= MAX_SUFFIXES
    ensures name in domains || DotSuffixListed(name, domains, MAX_SUFFIXES) <==> ListedOrSuffix(name, domains)
  {
    forall i | 0 <= i < |name| && name[i] == DOT
      ensures DotCount(name, i) < MAX_SUFFIXES
    {
      DotCountMonotone(name, i, |name|);
    }
  }

  // ----- The verdict on an encoded ClientHello

  /** The first server name of a frame whose name the classifier judges. */
  function Host(f: Frame): Bytes
    requires WellFramed(f) && Judged(f)
  {
    FirstName(f.hello.extensions).name
  }

  function HostLoaded(f: Frame): (raw: Bytes)
    requires WellFramed(f) && Judged(f)
    ensures |raw| == ReadLen(|Host(f)|) && raw[..|Host(f)|] == Host(f)
  {
    RawName(f.hello.extensions, f.trailing)
  }

  /** The name's length is odd, or the byte that follows it is zero. */
  predicate ExactMatchSeesName(f: Frame)
    requires WellFramed(f) && Judged(f)
  {
    |Host(f)| % 2 == 1 || HostLoaded(f)[|Host(f)|] == 0
  }

  /** The verdict on every encoded ClientHello, for every list of storable domains. */
  lemma VerdictOnFrame(f: Frame, domains: set<Bytes>)
    requires WellFramed(f) && AllStorable(domains)
    requires Judged(f) ==> NulFree(Host(f))
    ensures Dropped(Packet(f), KeysOf(domains)) <==>
            Judged(f) && (|| Compared(HostLoaded(f), |Host(f)|) in domains
                          || DotSuffixListed(Host(f), domains, MAX_SUFFIXES))
  {
    LoadedFromFrame(f);
    if Judged(f) {
      NameListedMeaning(HostLoaded(f), |Host(f)|, domains);
    }
  }

  /** A judged name of odd length, or followed by a zero byte, with at most ten dots is
      dropped exactly when it or one of its dot-suffixes is listed. */
  lemma DroppedIffListed(f: Frame, domains: set<Bytes>)
    requires WellFramed(f) && AllStorable(domains) && Judged(f) && NulFree(Host(f))
    requires ExactMatchSeesName(f) && DotCount(Host(f), |Host(f)|) <= MAX_SUFFIXES
    ensures Dropped(Packet(f), KeysOf(domains)) <==> ListedOrSuffix(Host(f), domains)
  {
    VerdictOnFrame(f, domains);
    FewDots(Host(f), domains);
    assert Compared(HostLoaded(f), |Host(f)|) == Host(f);
  }

  /** The extra byte matters: being listed is enough for a name to be dropped, whatever else
      is listed, exactly when its length is odd, or the next byte is zero, or it starts with
      a dot. */
  lemma ListedNameDroppedIff(f: Frame)
    requires WellFramed(f) && Judged(f) && NulFree(Host(f))
    ensures (forall domains: set<Bytes> :: AllStorable(domains) && Host(f) in domains ==>
                                             Dropped(Packet(f), KeysOf(domains))) <==>
            ExactMatchSeesName(f) || Host(f)[0] == DOT
  {
    if ExactMatchSeesName(f) || Host(f)[0] == DOT {
      forall domains: set<Bytes> | AllStorable(domains) && Host(f) in domains
        ensures Dropped(Packet(f), KeysOf(domains))
      {
        ListedNameDropped(f, domains);
      }
    } else {
      OnlyNameListed(f);
      assert AllStorable({Host(f)}) && Host(f) in {Host(f)};
    }
  }

  lemma ListedNameDropped(f: Frame, domains: set<Bytes>)
    requires WellFramed(f) && Judged(f) && NulFree(Host(f)) && AllStorable(domains) && Host(f) in domains
    requires ExactMatchSeesName(f) || Host(f)[0] == DOT
    ensures Dropped(Packet(f), KeysOf(domains))
  {
    var name := Host(f);
    VerdictOnFrame(f, domains);
    assert ExactMatchSeesName(f) ==> Compared(HostLoaded(f), |name|) == name;
    assert name[0..] == name && DotCount(name, 0) == 0;
  }

  /** The name as the whole list, when the extra byte hides it. */
  lemma OnlyNameListed(f: Frame)
    requires WellFramed(f) && Judged(f) && NulFree(Host(f)) && !ExactMatchSeesName(f) && Host(f)[0] != DOT
    ensures !Dropped(Packet(f), KeysOf({Host(f)}))
  {
    var name := Host(f);
    VerdictOnFrame(f, {name});
    assert Compared(HostLoaded(f), |name|) == HostLoaded(f) != name;
    forall i | 0 <= i < |name| && name[i] == DOT
      ensures name[i..] != name
    {
      assert |name[i..]| == |name| - i;
    }
  }

  // ----- A frame whose listed name gets through

  const IPV4_HEADER: Bytes := [0x45, 0, 0, 0, 0, 0, 0, 0, 64, 6, 0, 0, 10, 0, 0, 1, 10, 0, 0, 2]
  const TCP_HEADER: Bytes := [4, 0, 1, 187, 0, 0, 0, 0, 0, 0, 0, 0, 0x50, 0, 0, 0, 0, 0, 0, 0]
  const TWO_LETTERS: Bytes := [97, 98]

  /** The server_name extension comes last, and the packet goes on with a byte that is not zero. */
  function HidingFrame(): Frame {
    var hello := Hello([3, 3], Zeros(32), [], [], [], [Sni([ServerName(0, TWO_LETTERS)])]);
    Frame([], IPV4_HEADER, TCP_HEADER, [3, 1], hello, [1])
  }

  lemma HidingFrameShape()
    ensures var f := HidingFrame();
            && WellFramed(f) && ShortPrefix(f.hello)
            && SniIndex(f.hello.extensions) == 0 && Offset(f.hello.extensions, 0) == 0
  {
    var e := Sni([ServerName(0, TWO_LETTERS)]);
    assert NamesSize([]) == 0 && [ServerName(0, TWO_LETTERS)][1..] == [];
    assert NamesSize(e.list) == 5 && BodySize(e) == 7;
    assert [e][1..] == [];
    assert Offset([], 0) == 0 && Offset([e], 1) == 11;
  }

  lemma ListedNameGetsThrough()
    ensures var f := HidingFrame();
            && WellFramed(f) && Judged(f) && Host(f) == TWO_LETTERS && !ExactMatchSeesName(f)
            && !Dropped(Packet(f), KeysOf({Host(f)}))
  {
    HidingFrameShape();
    var f := HidingFrame();
    var es := f.hello.extensions;
    assert Reached(es) && FirstName(es) == ServerName(0, TWO_LETTERS);
    assert es[0].list[1..] == [] && es[1..] == [];
    assert PutExtensions([], [1]) == [1] && PutNames([], [1]) == [1];
    assert After(es, [1]) == [1];
    assert RawName(es, [1]) == TWO_LETTERS + [1];
    OnlyNameListed(f);
  }

  // ----- A frame to another port that is dropped

  const TO_PORT_80: Bytes := [4, 0, 0, 80, 0, 0, 0, 0, 0, 0, 0, 0, 0x50, 0, 0, 0, 0, 0, 0, 0]
  const ONE_LETTER: Bytes := [97]

  function Port80Frame(): Frame {
    var hello := Hello([3, 3], Zeros(32), [], [], [], [Sni([ServerName(0, ONE_LETTER)])]);
    Frame([], IPV4_HEADER, TO_PORT_80, [3, 1], hello, [])
  }

  lemma Port80FrameShape()
    ensures var f := Port80Frame();
            && WellFramed(f) && ShortPrefix(f.hello)
            && SniIndex(f.hello.extensions) == 0 && Offset(f.hello.extensions, 0) == 0
  {
    var e := Sni([ServerName(0, ONE_LETTER)]);
    assert NamesSize([]) == 0 && [ServerName(0, ONE_LETTER)][1..] == [];
    assert NamesSize(e.list) == 4 && BodySize(e) == 6;
    assert [e][1..] == [];
    assert Offset([], 0) == 0 && Offset([e], 1) == 10;
  }

  /** Its TCP header starts at byte 20 and names port 80. */
  lemma {:induction false} Port80InPacket(p: Bytes, record: Bytes)
    requires p == [] + (IPV4_HEADER + (TO_PORT_80 + record))
    ensures FindTcp(p) == Some(20) && LoadU16(p, 22) == Some(80)
  {
    assert forall i :: 0 <= i < 20 ==> p[i] == IPV4_HEADER[i];
    assert p[22] == TO_PORT_80[2] && p[23] == TO_PORT_80[3];
  }

  /** A listed name is dropped on its way to port 80. */
  lemma DroppedOnPort80()
    ensures WellFramed(Port80Frame())
    ensures var p := Packet(Port80Frame());
            && FindTcp(p) == Some(20) && LoadU16(p, 22) == Some(80)
            && Dropped(p, KeysOf({ONE_LETTER}))
  {
    Port80FrameShape();
    var f := Port80Frame();
    var es := f.hello.extensions;
    Port80InPacket(Packet(f), PutRecord(f.recordVersion, f.hello, BlockSize(es), PutExtensions(es, f.trailing)));
    assert Reached(es) && FirstName(es) == ServerName(0, ONE_LETTER);
    ListedNameDropped(f, {ONE_LETTER});
  }

  // ----- Long names

  /** No frame whose first server name has 128 bytes or more is dropped, whatever is listed. */
  lemma {:induction false} LongNameNeverDropped(f: Frame, blocklist: set<Key>)
    requires WellFramed(f) && Reached(f.hello.extensions) && |FirstName(f.hello.extensions).name| >= 128
    ensures !Dropped(Packet(f), blocklist)
  {
    LoadedFromFrame(f);
  }
}

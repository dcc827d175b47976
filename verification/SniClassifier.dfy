/** The traffic classifier: it parses a packet with bounded loads, fills two 256-byte
    buffers in place and walks the labels of the name. */
module SniClassifier {
  import opened ByteStrings
  import opened BlocklistKeys
  import opened SniParser

  datatype Verdict = TcActOk | TcActShot

  /** A parsing stage either fails on a load, lets the packet pass, or goes on. */
  datatype Stage<+T> = LoadError | Pass | GoOn(value: T)

  class Classifier {
    var blocklist: set<Key>
    const nameBuf: array<Byte>
    const suffixBuf: array<Byte>

    ghost predicate Valid() {
      nameBuf.Length == MAX_DNS_NAME_LEN && suffixBuf.Length == MAX_DNS_NAME_LEN && nameBuf != suffixBuf
    }

    constructor (blocklist: set<Key>)
      ensures Valid() && this.blocklist == blocklist && fresh(nameBuf) && fresh(suffixBuf)
    {
      this.blocklist := blocklist;
      nameBuf := new Byte[MAX_DNS_NAME_LEN];
      suffixBuf := new Byte[MAX_DNS_NAME_LEN];
    }

    /** A load of one byte. Every call shows that its offset is below the bound. */
    method SkbLoadU8(packet: Bytes, off: nat) returns (r: Option<Byte>)
      requires off < LOAD_BOUND
      ensures r == LoadU8(packet, off)
    {
      if off >= |packet| {
        return None;
      }
      return Some(packet[off]);
    }

    /** A big-endian load of two bytes, both below the bound. */
    method SkbLoadU16(packet: Bytes, off: nat) returns (r: Option<nat>)
      requires off + 2 <= LOAD_BOUND
      ensures r == LoadU16(packet, off)
    {
      if off + 2 > |packet| {
        return None;
      }
      var hi: int, lo: int := packet[off], packet[off + 1];
      return Some(hi * 256 + lo);
    }

    /** An error on the way lets the packet pass. */
    method Antidistractor(packet: Bytes) returns (verdict: Verdict)
      requires Valid()
      modifies nameBuf, suffixBuf
      ensures verdict == TcActShot <==> Dropped(packet, blocklist)
    {
      var r := TryAntidistractor(packet);
      verdict := if r.Some? then r.value else TcActOk;
    }

    /** None is the error result. */
    method TryAntidistractor(packet: Bytes) returns (r: Option<Verdict>)
      requires Valid()
      modifies nameBuf, suffixBuf
      ensures r == Some(TcActShot) <==> Dropped(packet, blocklist)
    {
      var exts := LocateExtensions(packet);
      if exts.LoadError? {
        return None;
      }
      if exts.Pass? {
        return Some(TcActOk);
      }
      var name := FindSni(packet, exts.value);
      NameFromBlock(packet);
      if name.LoadError? {
        return None;
      }
      if name.Pass? {
        return Some(TcActOk);
      }
      NameInBlockBounds(packet, exts.value);
      var verdict := JudgeName(packet, name.value);
      return Some(verdict);
    }

    method LocateExtensions(packet: Bytes) returns (r: Stage<Span>)
      ensures if r.GoOn? then FindBlock(packet) == Some(r.value) else FindBlock(packet).None?
      ensures r.GoOn? ==> r.value.start <= 759
    {
      var tcp := LocateTcp(packet);
      if !tcp.GoOn? {
        return if tcp.Pass? then Pass else LoadError;
      }
      var offset := tcp.value;
      var doffByte := SkbLoadU8(packet, offset + 12);
      if doffByte.None? {
        return LoadError;
      }
      var doff := doffByte.value / 16 * 4;
      if doff < 20 || doff > 60 {
        return Pass;
      }
      r := SkipToExtensions(packet, offset + doff);
    }

    method LocateTcp(packet: Bytes) returns (r: Stage<nat>)
      ensures if r.GoOn? then FindTcp(packet) == Some(r.value) else FindTcp(packet).None?
      ensures r.GoOn? ==> r.value <= 74
    {
      var offset: nat;
      var proto: Option<Byte>;
      var firstByte := SkbLoadU8(packet, 0);
      if firstByte.None? {
        return LoadError;
      }
      var ipVersion := firstByte.value / 16;
      if ipVersion == 4 {
        offset := 0;
        proto := SkbLoadU8(packet, offset + 9);
        var ihl := firstByte.value % 16 * 4;
        if proto.Some? && (ihl < 20 || ihl > 60) {
          return Pass;
        }
        offset := offset + ihl;
      } else if ipVersion == 6 {
        offset := 0;
        proto := SkbLoadU8(packet, offset + 6);
        offset := offset + 40;
      } else {
        var etherType := SkbLoadU16(packet, 12);
        if etherType.None? {
          return LoadError;
        }
        offset := 14;
        if etherType.value == 0x0800 {
          var verIhl := SkbLoadU8(packet, offset);
          if verIhl.None? {
            return LoadError;
          }
          proto := SkbLoadU8(packet, offset + 9);
          var ihl := verIhl.value % 16 * 4;
          if proto.Some? && (ihl < 20 || ihl > 60) {
            return Pass;
          }
          offset := offset + ihl;
        } else if etherType.value == 0x86DD {
          proto := SkbLoadU8(packet, offset + 6);
          offset := offset + 40;
        } else {
          return Pass;
        }
      }
      if proto.None? {
        return LoadError;
      }
      if proto.value != 6 {
        return Pass;
      }
      return GoOn(offset);
    }

    /** From the TLS record header to the extension block of the ClientHello. */
    method SkipToExtensions(packet: Bytes, rec: nat) returns (r: Stage<Span>)
      requires rec <= 134
      ensures if r.GoOn? then FindExtensions(packet, rec) == Some(r.value) else FindExtensions(packet, rec).None?
      ensures r.GoOn? ==> r.value.start <= rec + 625
    {
      var offset: nat := rec;
      var contentType := SkbLoadU8(packet, offset);
      if contentType.None? {
        return LoadError;
      }
      if contentType.value != 22 {
        return Pass;
      }
      offset := offset + 5;
      var hsType := SkbLoadU8(packet, offset);
      if hsType.None? {
        return LoadError;
      }
      if hsType.value != 1 {
        return Pass;
      }
      offset := offset + 4;
      offset := offset + 34;
      var sidLen := SkbLoadU8(packet, offset);
      if sidLen.None? {
        return LoadError;
      }
      if sidLen.value > 32 {
        return Pass;
      }
      var sid: nat := sidLen.value;
      offset := offset + 1 + sid;
      var csLen := SkbLoadU16(packet, offset);
      if csLen.None? {
        return LoadError;
      }
      if csLen.value > 512 {
        return Pass;
      }
      offset := offset + 2 + csLen.value;
      var cpLen := SkbLoadU8(packet, offset);
      if cpLen.None? {
        return LoadError;
      }
      if cpLen.value > 32 {
        return Pass;
      }
      var cp: nat := cpLen.value;
      offset := offset + 1 + cp;
      var extsLen := SkbLoadU16(packet, offset);
      if extsLen.None? {
        return LoadError;
      }
      offset := offset + 2;
      return GoOn(Span(offset, extsLen.value));
    }

    /** The bounded scan over the extensions, and the head of the server name list. */
    method FindSni(packet: Bytes, exts: Span) returns (r: Stage<Span>)
      requires exts.start <= 759
      ensures if r.GoOn? then NameInBlock(packet, exts) == Some(r.value) else NameInBlock(packet, exts).None?
    {
      var curExt: nat := 0;
      for i := 0 to 64
        invariant curExt <= 1024
        invariant ScanExtensions(packet, exts, 0, MAX_EXTENSIONS) == ScanExtensions(packet, exts, curExt, 64 - i)
      {
        if curExt + 4 > exts.len {
          return Pass;
        }
        var etype := SkbLoadU16(packet, exts.start + curExt);
        if etype.None? {
          return LoadError;
        }
        var elen := SkbLoadU16(packet, exts.start + curExt + 2);
        if elen.None? {
          return LoadError;
        }
        if etype.value == 0 {
          r := ReadServerName(packet, exts.start + curExt + 4);
          return;
        }
        curExt := curExt + 4 + elen.value;
        if curExt > 1024 {
          return Pass;
        }
      }
      return Pass;
    }

    method ReadServerName(packet: Bytes, body: nat) returns (r: Stage<Span>)
      requires body + 132 <= LOAD_BOUND
      ensures if r.GoOn? then HostName(packet, body) == Some(r.value) else HostName(packet, body).None?
    {
      var sniOff := body;
      sniOff := sniOff + 2;
      var nameType := SkbLoadU8(packet, sniOff);
      if nameType.None? {
        return LoadError;
      }
      if nameType.value != 0 {
        return Pass;
      }
      sniOff := sniOff + 1;
      var nameLen := SkbLoadU16(packet, sniOff);
      if nameLen.None? {
        return LoadError;
      }
      sniOff := sniOff + 2;
      // The bulk load of the name fails, and the packet passes, when it would run
      // past the end of the packet.
      if 0 < nameLen.value < 128 && sniOff + ReadLen(nameLen.value) <= |packet| {
        return GoOn(Span(sniOff, nameLen.value));
      }
      return Pass;
    }

    /** Zero the name buffer, load the name into it, then try the whole buffer and
        every suffix. */
    method JudgeName(packet: Bytes, name: Span) returns (verdict: Verdict)
      requires Valid()
      requires 0 < name.len < 128 && name.start + ReadLen(name.len) <= |packet|
      requires name.start + ReadLen(name.len) <= LOAD_BOUND
      modifies nameBuf, suffixBuf
      ensures verdict == TcActShot <==> Listed(Load(packet, Some(name)), blocklist)
    {
      forall i | 0 <= i < nameBuf.Length {
        nameBuf[i] := 0;
      }
      var readLen := ReadLen(name.len);
      ghost var raw := packet[name.start..name.start + readLen];
      forall i | 0 <= i < readLen {
        nameBuf[i] := packet[name.start + i];
      }
      assert nameBuf[..] == KeyOf(raw);
      if nameBuf[..] in blocklist {
        return TcActShot;
      }
      var hit := WalkSuffixes(raw, name.len);
      return if hit then TcActShot else TcActOk;
    }

    /** The label walk over the name buffer: at most ten dots, each starting a suffix
        that is copied to the suffix buffer and looked up. */
    method WalkSuffixes(ghost raw: Bytes, nameLen: nat) returns (hit: bool)
      requires Valid() && 0 < nameLen < 128 && nameLen <= |raw| <= 128
      requires nameBuf[..] == KeyOf(raw)
      modifies suffixBuf
      ensures hit <==> SuffixListed(raw[..nameLen], blocklist)
    {
      ghost var name := raw[..nameLen];
      var dotPos: nat := 0;
      for i := 0 to 10
        invariant dotPos < nameLen
        invariant DotCount(name, dotPos) == i
        invariant forall p :: 0 <= p < dotPos && name[p] == DOT ==> KeyOf(name[p..]) !in blocklist
      {
        var found, j := NextDot(dotPos);
        forall p | dotPos <= p < j && p < nameLen
          ensures name[p] != DOT
        {
          assert nameBuf[..][p] == raw[p];
        }
        if !found {
          return false;
        }
        ghost var from := dotPos;
        dotPos := j;
        forall k | 0 <= k < suffixBuf.Length {
          suffixBuf[k] := 0;
        }
        var suffixLen := if nameLen > dotPos then nameLen - dotPos else 0;
        if suffixLen == 0 || suffixLen >= MAX_DNS_NAME_LEN {
          return false;
        }
        assert name[dotPos] == nameBuf[..][dotPos] == DOT;
        NoDotsBetween(name, from, dotPos);
        CopySuffix(dotPos, suffixLen);
        assert suffixBuf[..] == KeyOf(name[dotPos..]) by {
          SuffixKey(raw, nameLen, dotPos);
        }
        if suffixBuf[..] in blocklist {
          return true;
        }
        dotPos := dotPos + 1;
        if dotPos >= nameLen {
          return false;
        }
      }
      forall p | 0 <= p < nameLen && name[p] == DOT && DotCount(name, p) < MAX_SUFFIXES
        ensures KeyOf(name[p..]) !in blocklist
      {
        if dotPos <= p {
          DotCountMonotone(name, dotPos, p);
        }
      }
      return false;
    }

    /** The first dot at or after dotPos among the first 128 bytes of the name buffer. */
    method NextDot(dotPos: nat) returns (found: bool, j: nat)
      requires Valid() && dotPos < 128
      ensures dotPos <= j <= 128 && found == (j < 128)
      ensures found ==> nameBuf[j] == DOT
      ensures forall p :: dotPos <= p < j ==> nameBuf[p] != DOT
    {
      j := dotPos;
      while j < 128
        invariant dotPos <= j <= 128
        invariant forall p :: dotPos <= p < j ==> nameBuf[p] != DOT
      {
        if nameBuf[j] == DOT {
          return true, j;
        }
        j := j + 1;
      }
      return false, j;
    }

    /** The bounded copy of nameBuf[dotPos..dotPos + suffixLen] to the front of the
        zeroed suffix buffer. */
    method CopySuffix(dotPos: nat, suffixLen: nat)
      requires Valid() && 0 < suffixLen <= 128 && dotPos + suffixLen <= 128
      requires forall k :: 0 <= k < MAX_DNS_NAME_LEN ==> suffixBuf[k] == 0
      modifies suffixBuf
      ensures suffixBuf[..] == nameBuf[dotPos..dotPos + suffixLen] + Zeros(MAX_DNS_NAME_LEN - suffixLen)
    {
      var k: nat := 0;
      while k < 128 && k < suffixLen
        invariant k <= suffixLen
        invariant forall i :: 0 <= i < k ==> suffixBuf[i] == nameBuf[dotPos + i]
        invariant forall i :: k <= i < MAX_DNS_NAME_LEN ==> suffixBuf[i] == 0
      {
        var src := dotPos + k;
        if src >= MAX_DNS_NAME_LEN || k >= MAX_DNS_NAME_LEN {
          break;
        }
        suffixBuf[k] := nameBuf[src];
        k := k + 1;
      }
    }
  }

  /** Cutting a suffix of the name out of the name buffer and padding it again gives
      the suffix's own key. */
  lemma SuffixKey(raw: Bytes, len: nat, from: nat)
    requires from < len <= |raw| <= 128
    ensures KeyOf(raw)[from..len] + Zeros(MAX_DNS_NAME_LEN - (len - from)) == KeyOf(raw[..len][from..])
  {
    assert KeyOf(raw)[from..len] == raw[..len][from..];
  }
}

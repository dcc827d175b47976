/** The Linux and the Android rule for the same list of domains, and exactly when they agree. */
module PlatformRules {
  import opened ByteStrings
  import opened BlocklistKeys
  import opened SniParser
  import opened DnsText
  import opened DomainRules

  predicate Ascii(s: Bytes) {
    forall i :: 0 <= i < |s| ==> s[i] < 128
  }

  predicate LowercaseAscii(s: Bytes) {
    Ascii(s) && forall i :: 0 <= i < |s| ==> !(65 <= s[i] <= 90)
  }

  /** A domain that both platforms can store as documented. */
  predicate Listable(d: Bytes) {
    LowercaseAscii(d) && NulFree(d) && |d| < MAX_DNS_NAME_LEN && (d != [] ==> d[0] != DOT)
  }

  /** A name that the classifier can load, written in any way. */
  predicate Askable(name: Bytes) {
    Ascii(name) && NulFree(name) && 0 < |name| < 128
  }

  /** A name in the form that the Android rule compares: lower case and no dot at the end. */
  predicate Canonical(name: Bytes) {
    LowercaseAscii(name) && name != [] && name[|name| - 1] != DOT
  }

  predicate AllDots(name: Bytes) {
    forall i :: 0 <= i < |name| ==> name[i] == DOT
  }

  /** Nothing is lower-cased, and only a name of dots ends in one. */
  predicate Plain(name: Bytes) {
    Askable(name) && LowercaseAscii(name) && (name[|name| - 1] != DOT || AllDots(name))
  }

  /** On Linux every domain is stored twice: as it is, and as a suffix key. */
  function LinuxEntries(domains: set<Bytes>): set<Bytes> {
    domains + (set d | d in domains :: [DOT] + d)
  }

  /** On Android it is stored once. */
  function AndroidEntries(domains: set<Bytes>): set<Text> {
    set d | d in domains :: WidenAll(d)
  }

  ghost predicate LinuxBlocks(raw: Bytes, len: nat, domains: set<Bytes>)
    requires len <= |raw|
  {
    NameListed(raw, len, KeysOf(LinuxEntries(domains)))
  }

  predicate AndroidBlocks(name: Bytes, domains: set<Bytes>) {
    IsBlocked(WidenAll(name), AndroidEntries(domains))
  }

  /** The name is a listed domain, or one of its first limit dots comes before one. */
  ghost predicate UnderListed(name: Bytes, domains: set<Bytes>, limit: nat) {
    || name in domains
    || exists i :: 0 <= i < |name| && name[i] == DOT && DotCount(name, i) < limit && name[i + 1..] in domains
  }

  /** The bytes that the classifier can have loaded for the name. */
  predicate LoadedFor(raw: Bytes, name: Bytes) {
    |raw| == ReadLen(|name|) && raw[..|name|] == name
  }

  /** The exact match compares the name itself. */
  predicate SeesName(raw: Bytes, name: Bytes) {
    |name| == |raw| || (|name| < |raw| && raw[|name|] == 0)
  }

  /** Some dot within the limit comes right before a listed domain. */
  ghost predicate BelowListed(name: Bytes, domains: set<Bytes>, limit: nat) {
    exists i :: 0 <= i < |name| && name[i] == DOT && DotCount(name, i) < limit && name[i + 1..] in domains
  }

  /** Whatever was loaded: the compared bytes are an entry, or the name is below a listed
      domain within ten dots. */
  lemma LinuxDecides(raw: Bytes, name: Bytes, domains: set<Bytes>)
    requires Askable(name) && LoadedFor(raw, name)
    requires forall d :: d in domains ==> Listable(d)
    ensures LinuxBlocks(raw, |name|, domains) <==>
            Compared(raw, |name|) in LinuxEntries(domains) || BelowListed(name, domains, MAX_SUFFIXES)
  {
    var entries := LinuxEntries(domains);
    assert AllStorable(entries);
    NameListedMeaning(raw, |name|, entries);
    forall i | 0 <= i < |name| && name[i] == DOT
      ensures name[i..] in entries <==> name[i + 1..] in domains
    {
      SuffixEntry(name, i, domains);
    }
  }

  lemma LinuxMeaning(raw: Bytes, name: Bytes, domains: set<Bytes>)
    requires Askable(name) && LoadedFor(raw, name) && SeesName(raw, name)
    requires forall d :: d in domains ==> Listable(d)
    ensures LinuxBlocks(raw, |name|, domains) <==> UnderListed(name, domains, MAX_SUFFIXES)
  {
    var entries := LinuxEntries(domains);
    LinuxDecides(raw, name, domains);
    assert Compared(raw, |name|) == name;
    if name in entries && name !in domains {
      assert name[0..] == name && DotCount(name, 0) == 0 && name[0] == DOT;
      SuffixEntry(name, 0, domains);
    }
  }

  lemma SuffixEntry(name: Bytes, i: nat, domains: set<Bytes>)
    requires i < |name| && name[i] == DOT && forall d :: d in domains ==> Listable(d)
    ensures name[i..] in LinuxEntries(domains) <==> name[i + 1..] in domains
  {
    assert name[i..] == [DOT] + name[i + 1..];
    if name[i..] in LinuxEntries(domains) {
      assert name[i..] !in domains;
      var d :| d in domains && [DOT] + d == name[i..];
      assert d == name[i..][1..];
    }
  }

  lemma WidenInjective(a: Bytes, b: Bytes)
    requires WidenAll(a) == WidenAll(b)
    ensures a == b
  {
    forall i | 0 <= i < |a|
      ensures a[i] == b[i]
    {
      assert WidenAll(a)[i] == WidenAll(b)[i];
    }
  }

  /** A canonical name stands as it is: nothing to lower-case, no trailing dot. */
  lemma NormalName(name: Bytes)
    requires Canonical(name)
    ensures TrimEndDots(Lowercase(WidenAll(name))) == WidenAll(name)
  {
    assert Lowercase(WidenAll(name)) == WidenAll(name);
  }

  lemma WidenedSuffix(name: Bytes, d: Bytes)
    ensures EndsWith(WidenAll(name), [TEXT_DOT] + WidenAll(d)) <==>
            |d| < |name| && var i := |name| - |d| - 1; name[i] == DOT && name[i + 1..] == d
  {
    if |d| < |name| {
      var i := |name| - |d| - 1;
      var tail := WidenAll(name)[i..];
      assert tail == WidenAll(name[i..]);
      assert [TEXT_DOT] + WidenAll(d) == WidenAll([DOT] + d);
      assert name[i..] == [name[i]] + name[i + 1..];
      if tail == [TEXT_DOT] + WidenAll(d) {
        WidenInjective(name[i..], [DOT] + d);
      }
    }
  }

  lemma OneEntryUnder(name: Bytes, d: Bytes, domains: set<Bytes>)
    requires d in domains
    requires WidenAll(name) == WidenAll(d) || EndsWith(WidenAll(name), [TEXT_DOT] + WidenAll(d))
    ensures UnderListed(name, domains, |name|)
  {
    if WidenAll(name) == WidenAll(d) {
      WidenInjective(name, d);
    } else {
      WidenedSuffix(name, d);
      var i := |name| - |d| - 1;
      assert name[i] == DOT && name[i + 1..] in domains && DotCount(name, i) < |name|;
    }
  }

  lemma AndroidBlocksUnder(name: Bytes, domains: set<Bytes>)
    requires Canonical(name) && AndroidBlocks(name, domains)
    ensures UnderListed(name, domains, |name|)
  {
    NormalName(name);
    var b :| b in AndroidEntries(domains) && (WidenAll(name) == b || EndsWith(WidenAll(name), [TEXT_DOT] + b));
    var d :| d in domains && b == WidenAll(d);
    OneEntryUnder(name, d, domains);
  }

  lemma AndroidMeaning(name: Bytes, domains: set<Bytes>)
    requires Canonical(name)
    ensures AndroidBlocks(name, domains) <==> UnderListed(name, domains, |name|)
  {
    NormalName(name);
    if AndroidBlocks(name, domains) {
      AndroidBlocksUnder(name, domains);
    }
    if name in domains {
      assert WidenAll(name) in AndroidEntries(domains);
    } else if UnderListed(name, domains, |name|) {
      var i :| 0 <= i < |name| && name[i] == DOT && name[i + 1..] in domains;
      WidenedSuffix(name, name[i + 1..]);
      assert WidenAll(name[i + 1..]) in AndroidEntries(domains);
    }
  }

  /** The same for every plain name, when the domains are listable: a name of dots is under
      the empty domain only. */
  lemma {:induction false} AndroidDecides(name: Bytes, domains: set<Bytes>)
    requires Plain(name) && forall d :: d in domains ==> Listable(d)
    ensures AndroidBlocks(name, domains) <==> UnderListed(name, domains, |name|)
  {
    if name[|name| - 1] != DOT {
      AndroidMeaning(name, domains);
    } else {
      DotsOnAndroid(name, domains);
      DotsUnder(name, domains);
    }
  }

  lemma {:induction false} DotsOnAndroid(name: Bytes, domains: set<Bytes>)
    requires AllDots(name) && Askable(name)
    ensures AndroidBlocks(name, domains) <==> [] in domains
  {
    assert Lowercase(WidenAll(name)) == WidenAll(name);
    TrimIs(WidenAll(name), 0);
    if AndroidBlocks(name, domains) {
      var b :| b in AndroidEntries(domains) && ([] == b || EndsWith([], [TEXT_DOT] + b));
      var d :| d in domains && b == WidenAll(d);
      assert |d| == |b| == 0;
    }
    if [] in domains {
      assert WidenAll([]) == [] && WidenAll([]) in AndroidEntries(domains);
    }
  }

  lemma {:induction false} DotsUnder(name: Bytes, domains: set<Bytes>)
    requires AllDots(name) && name != [] && forall d :: d in domains ==> Listable(d)
    ensures UnderListed(name, domains, |name|) <==> [] in domains
  {
    forall i | 0 <= i < |name| && name[i] == DOT
      ensures name[i + 1..] in domains ==> name[i + 1..] == []
    {
      if name[i + 1..] != [] {
        assert name[i + 1..][0] == DOT;
      }
    }
    var last := |name| - 1;
    assert name[last] == DOT && name[last + 1..] == [];
    assert DotCount(name, last) < |name|;
  }

  /** What trimming keeps, by where it ends. */
  lemma {:induction false} TrimIs(s: Text, n: nat)
    requires n <= |s| && (n > 0 ==> s[n - 1] != TEXT_DOT) && forall i :: n <= i < |s| ==> s[i] == TEXT_DOT
    ensures TrimEndDots(s) == s[..n]
  {
    var t := TrimEndDots(s);
    assert t != [] ==> t[|t| - 1] == s[|t| - 1];
  }

  /** Few dots: the limit on the walk does not matter below a listed domain. */
  lemma FewDotsBelow(name: Bytes, domains: set<Bytes>)
    requires DotCount(name, |name|) <= MAX_SUFFIXES
    ensures BelowListed(name, domains, MAX_SUFFIXES) <==> BelowListed(name, domains, |name|)
  {
    forall i | 0 <= i < |name| && name[i] == DOT
      ensures DotCount(name, i) < MAX_SUFFIXES && DotCount(name, i) < |name|
    {
      DotCountMonotone(name, i, |name|);
    }
  }

  /** For a name with at most ten dots, of odd length or followed by a zero byte, both
      platforms take the same decision on every list of domains. */
  lemma {:induction false} AgreeWithFewDots(raw: Bytes, name: Bytes, domains: set<Bytes>)
    requires Plain(name) && LoadedFor(raw, name) && SeesName(raw, name)
    requires forall d :: d in domains ==> Listable(d)
    requires DotCount(name, |name|) <= MAX_SUFFIXES
    ensures LinuxBlocks(raw, |name|, domains) <==> AndroidBlocks(name, domains)
  {
    LinuxMeaning(raw, name, domains);
    AndroidDecides(name, domains);
    FewDotsBelow(name, domains);
    assert UnderListed(name, domains, MAX_SUFFIXES) <==> name in domains || BelowListed(name, domains, MAX_SUFFIXES);
    assert UnderListed(name, domains, |name|) <==> name in domains || BelowListed(name, domains, |name|);
  }

  ghost predicate PlatformsAgree(raw: Bytes, name: Bytes)
    requires |name| <= |raw|
  {
    forall domains: set<Bytes> :: (forall d :: d in domains ==> Listable(d)) ==>
                                    (LinuxBlocks(raw, |name|, domains) <==> AndroidBlocks(name, domains))
  }

  lemma {:induction false} LastDot(s: Bytes, n: nat) returns (i: nat)
    requires n <= |s| && DotCount(s, n) > 0
    ensures i < n && s[i] == DOT && DotCount(s, i) + 1 == DotCount(s, n)
    ensures forall j :: i < j < n ==> s[j] != DOT
  {
    if s[n - 1] == DOT {
      i := n - 1;
    } else {
      i := LastDot(s, n - 1);
    }
  }

  /** A single listed suffix is found exactly when its dot is within the limit. */
  lemma OneSuffix(name: Bytes, i: nat, limit: nat)
    requires i < |name| && name[i] == DOT
    ensures UnderListed(name, {name[i + 1..]}, limit) <==> DotCount(name, i) < limit
  {
    var d := name[i + 1..];
    var domains := {d};
    assert d in domains && |d| == |name| - i - 1;
    if DotCount(name, i) >= limit {
      forall j | 0 <= j < |name| && name[j] == DOT
        ensures name[j + 1..] in domains ==> j == i
      {
        assert |name[j + 1..]| == |name| - j - 1;
      }
    }
  }

  /** An entry for one domain is that domain, or it with a dot before it. */
  lemma OneEntry(entry: Bytes, d: Bytes)
    ensures entry in LinuxEntries({d}) <==> entry == d || entry == [DOT] + d
  {
    assert d in {d};
  }

  /** The suffix after the last of more than ten dots is seen on Android only. */
  lemma {:induction false} ElevenDotsDisagree(raw: Bytes, name: Bytes) returns (domains: set<Bytes>)
    requires Plain(name) && LoadedFor(raw, name)
    requires DotCount(name, |name|) > MAX_SUFFIXES
    ensures forall d :: d in domains ==> Listable(d)
    ensures AndroidBlocks(name, domains) && !LinuxBlocks(raw, |name|, domains)
  {
    var i := LastDot(name, |name|);
    var d := name[i + 1..];
    domains := {d};
    LinuxDecides(raw, name, domains);
    AndroidDecides(name, domains);
    OneSuffix(name, i, MAX_SUFFIXES);
    OneSuffix(name, i, |name|);
    OneEntry(Compared(raw, |name|), d);
    assert DotCount(name, 0) == 0;
    assert |Compared(raw, |name|)| >= |name| > |[DOT] + d|;
  }

  /** A listed name whose extra byte is not zero is seen on Android only. */
  lemma HiddenNameDisagrees(raw: Bytes, name: Bytes)
    requires Plain(name) && LoadedFor(raw, name) && !SeesName(raw, name) && name[0] != DOT
    ensures Listable(name) && AndroidBlocks(name, {name}) && !LinuxBlocks(raw, |name|, {name})
  {
    LinuxDecides(raw, name, {name});
    AndroidDecides(name, {name});
    OneEntry(raw, name);
    assert raw[0] == raw[..|name|][0];
    NotBelowItself(name);
  }

  lemma {:induction false} NotBelowItself(name: Bytes)
    ensures !BelowListed(name, {name}, MAX_SUFFIXES)
  {
    forall i | 0 <= i < |name| && name[i] == DOT
      ensures name[i + 1..] != name
    {
      assert |name[i + 1..]| == |name| - i - 1;
    }
  }

  /** A name is not under a domain of its own length that is another. */
  lemma {:induction false} NotUnder(name: Bytes, d: Bytes)
    requires |d| == |name| && d != name
    ensures !UnderListed(name, {d}, |name|)
  {
    forall i | 0 <= i < |name| && name[i] == DOT
      ensures name[i + 1..] != d
    {
      assert |name[i + 1..]| == |name| - i - 1;
    }
  }

  /** A name that starts with a dot, followed by a byte that makes a domain of the rest, is
      blocked by that domain on Linux only. */
  lemma DottedNameDisagrees(raw: Bytes, name: Bytes)
    requires Plain(name) && LoadedFor(raw, name) && !SeesName(raw, name) && name[0] == DOT && Listable(raw[1..])
    ensures LinuxBlocks(raw, |name|, {raw[1..]}) && !AndroidBlocks(name, {raw[1..]})
  {
    var d := raw[1..];
    assert raw[0] == raw[..|name|][0] && raw == [DOT] + d;
    LinuxDecides(raw, name, {d});
    OneEntry(raw, d);
    NotUnder(name, d);
    AndroidDecides(name, {d});
  }

  /** A name that starts with a dot is no domain, and with an extra byte that cannot end one
      it is no entry either. */
  lemma DottedNameAgrees(raw: Bytes, name: Bytes, domains: set<Bytes>)
    requires Plain(name) && LoadedFor(raw, name) && !SeesName(raw, name) && name[0] == DOT && !Listable(raw[1..])
    requires forall d :: d in domains ==> Listable(d)
    requires DotCount(name, |name|) <= MAX_SUFFIXES
    ensures LinuxBlocks(raw, |name|, domains) <==> AndroidBlocks(name, domains)
  {
    LinuxDecides(raw, name, domains);
    AndroidDecides(name, domains);
    FewDotsBelow(name, domains);
    assert raw[0] == raw[..|name|][0];
    forall d | d in domains
      ensures raw != d && raw != [DOT] + d
    {
      assert ([DOT] + d)[1..] == d;
    }
    assert UnderListed(name, domains, |name|) <==> name in domains || BelowListed(name, domains, |name|);
  }

  /** The extra byte does not matter to the comparison: it is not there or zero, or no entry
      can end in it. */
  predicate HarmlessExtra(raw: Bytes, name: Bytes)
    requires |name| <= |raw| && name != []
  {
    SeesName(raw, name) || (name[0] == DOT && !Listable(raw[1..]))
  }

  lemma {:induction false} AgreeWhenHarmless(raw: Bytes, name: Bytes, domains: set<Bytes>)
    requires Plain(name) && LoadedFor(raw, name) && HarmlessExtra(raw, name)
    requires forall d :: d in domains ==> Listable(d)
    requires DotCount(name, |name|) <= MAX_SUFFIXES
    ensures LinuxBlocks(raw, |name|, domains) <==> AndroidBlocks(name, domains)
  {
    if SeesName(raw, name) {
      AgreeWithFewDots(raw, name, domains);
    } else {
      DottedNameAgrees(raw, name, domains);
    }
  }

  // ----- Capitals and dots at the end

  function LowerBytes(s: Bytes): (t: Bytes)
    ensures |t| == |s| && forall i :: 0 <= i < |s| ==> t[i] == if 65 <= s[i] <= 90 then s[i] + 32 else s[i]
  {
    seq(|s|, i requires 0 <= i < |s| => if 65 <= s[i] <= 90 then s[i] + 32 else s[i])
  }

  /** The index of the first byte that is no dot, or the length. */
  function LeadingDots(s: Bytes): (n: nat)
    ensures n <= |s| && (n < |s| ==> s[n] != DOT) && forall i :: 0 <= i < n ==> s[i] == DOT
  {
    if s == [] || s[0] != DOT then 0 else 1 + LeadingDots(s[1..])
  }

  /** The length without the dots at the end. */
  function EndOfName(s: Bytes): (n: nat)
    ensures n <= |s| && (n > 0 ==> s[n - 1] != DOT) && forall i :: n <= i < |s| ==> s[i] == DOT
  {
    if s == [] || s[|s| - 1] != DOT then |s| else EndOfName(s[..|s| - 1])
  }

  /** The part of s from lo to hi. */
  lemma {:induction false} CutFacts(s: Bytes, lo: nat, hi: nat, r: Bytes)
    requires lo < hi <= |s| && r == s[..hi][lo..]
    ensures |r| == hi - lo && r[0] == s[lo] && r[|r| - 1] == s[hi - 1]
    ensures forall i :: 0 <= i < |r| ==> r[i] == s[lo + i]
  {
  }

  lemma {:induction false} CoreBounds(name: Bytes)
    requires !AllDots(name)
    ensures LeadingDots(name) < EndOfName(name) <= |LowerBytes(name)|
    ensures var lower := LowerBytes(name);
            && lower[LeadingDots(name)] != DOT && lower[EndOfName(name) - 1] != DOT
            && (LeadingDots(name) > 0 ==> lower[LeadingDots(name) - 1] == DOT)
  {
    var i :| 0 <= i < |name| && name[i] != DOT;
    assert LeadingDots(name) <= i < EndOfName(name);
  }

  lemma {:induction false} PartListable(name: Bytes, lower: Bytes, lo: nat, d: Bytes)
    requires Askable(name) && lower == LowerBytes(name) && lo + |d| <= |name| && (d != [] ==> d[0] != DOT)
    requires forall i :: 0 <= i < |d| ==> d[i] == lower[lo + i]
    ensures Listable(d)
  {
    forall i | 0 <= i < |d|
      ensures d[i] < 128 && d[i] != 0 && !(65 <= d[i] <= 90)
    {
      assert d[i] == lower[lo + i] && name[lo + i] < 128;
    }
  }

  lemma {:induction false} LowerWiden(name: Bytes)
    requires Ascii(name)
    ensures Lowercase(WidenAll(name)) == WidenAll(LowerBytes(name))
  {
  }

  /** What the Android rule compares. */
  lemma {:induction false} TrimmedLower(name: Bytes, end: nat)
    requires Ascii(name) && end == EndOfName(name)
    ensures TrimEndDots(Lowercase(WidenAll(name))) == WidenAll(LowerBytes(name)[..end])
  {
    var lower := LowerBytes(name);
    LowerWiden(name);
    TrimIs(WidenAll(lower), end);
    assert WidenAll(lower)[..end] == WidenAll(lower[..end]);
  }

  lemma {:induction false} CoreOnAndroid(name: Bytes, lower: Bytes, d: Bytes, start: nat, end: nat)
    requires Ascii(name) && lower == LowerBytes(name) && end == EndOfName(name) && start < end <= |lower|
    requires d == lower[..end][start..] && (start > 0 ==> lower[start - 1] == DOT)
    ensures AndroidBlocks(name, {d})
  {
    var trimmed := lower[..end];
    TrimmedLower(name, end);
    BlockedByTail(trimmed, start, d);
    BlockedByOne(name, trimmed, d);
  }

  /** The domain that Android sees in a name that is not all dots: the name in lower case
      without the dots at both ends. */
  lemma {:induction false} FindCore(name: Bytes) returns (d: Bytes)
    requires Askable(name) && !AllDots(name)
    ensures Listable(d) && AndroidBlocks(name, {d})
    ensures d != [] && d[|d| - 1] != DOT && |d| + LeadingDots(name) == EndOfName(name)
  {
    CoreBounds(name);
    d := CorePart(name, LowerBytes(name), LeadingDots(name), EndOfName(name));
  }

  lemma {:induction false} CorePart(name: Bytes, lower: Bytes, start: nat, end: nat) returns (d: Bytes)
    requires Askable(name) && lower == LowerBytes(name) && end == EndOfName(name) && start < end <= |lower|
    requires lower[start] != DOT && lower[end - 1] != DOT && (start > 0 ==> lower[start - 1] == DOT)
    ensures Listable(d) && AndroidBlocks(name, {d})
    ensures |d| == end - start && d[|d| - 1] != DOT
  {
    d := lower[..end][start..];
    CutFacts(lower, start, end, d);
    PartListable(name, lower, start, d);
    CoreOnAndroid(name, lower, d, start, end);
  }

  lemma {:induction false} BlockedByTail(s: Bytes, start: nat, d: Bytes)
    requires start <= |s| && d == s[start..] && (start > 0 ==> s[start - 1] == DOT)
    ensures WidenAll(s) == WidenAll(d) || EndsWith(WidenAll(s), [TEXT_DOT] + WidenAll(d))
  {
    if start == 0 {
      assert s == d;
    } else {
      WidenedSuffix(s, d);
    }
  }

  lemma {:induction false} BlockedByOne(name: Bytes, trimmed: Bytes, d: Bytes)
    requires TrimEndDots(Lowercase(WidenAll(name))) == WidenAll(trimmed)
    requires WidenAll(trimmed) == WidenAll(d) || EndsWith(WidenAll(trimmed), [TEXT_DOT] + WidenAll(d))
    ensures AndroidBlocks(name, {d})
  {
    assert d in {d};
    assert WidenAll(d) in AndroidEntries({d});
  }

  /** A name with a capital or with a dot at its end is neither the core nor below it. */
  lemma {:induction false} CoreIsOther(raw: Bytes, name: Bytes, d: Bytes)
    requires Askable(name) && !Plain(name) && |name| <= |raw| && raw[..|name|] == name
    requires d != [] && d[|d| - 1] != DOT && |d| + LeadingDots(name) == EndOfName(name)
    requires forall i :: 0 <= i < |d| ==> !(65 <= d[i] <= 90)
    ensures raw != d && raw != [DOT] + d && !BelowListed(name, {d}, MAX_SUFFIXES)
  {
    if EndOfName(name) < |name| {
      assert name[|name| - 1] == DOT;
      EndsInDotIsOther(raw, name, d);
    } else {
      var c :| 0 <= c < |name| && 65 <= name[c] <= 90;
      assert raw[..|name|][c] == raw[c];
      CapitalIsOther(raw, name, d, c);
    }
  }

  lemma {:induction false} CapitalIsOther(raw: Bytes, name: Bytes, d: Bytes, c: nat)
    requires c < |name| <= |raw| && 65 <= name[c] <= 90 && raw[c] == name[c]
    requires |d| + LeadingDots(name) == |name| && forall i :: 0 <= i < |d| ==> !(65 <= d[i] <= 90)
    ensures raw != d && raw != [DOT] + d && !BelowListed(name, {d}, MAX_SUFFIXES)
  {
    if c < |d| + 1 && c > 0 {
      assert ([DOT] + d)[c] == d[c - 1];
    }
    forall i | 0 <= i < |name| && name[i] == DOT
      ensures name[i + 1..] != d
    {
      if |name[i + 1..]| == |d| {
        assert i + 1 == LeadingDots(name) <= c;
        assert name[i + 1..][c - i - 1] == name[c];
      }
    }
  }

  lemma {:induction false} EndsInDotIsOther(raw: Bytes, name: Bytes, d: Bytes)
    requires 0 < |name| <= |raw| && raw[..|name|] == name && name[|name| - 1] == DOT
    requires d != [] && d[|d| - 1] != DOT && |d| + LeadingDots(name) < |name|
    ensures raw != d && raw != [DOT] + d && !BelowListed(name, {d}, MAX_SUFFIXES)
  {
    assert raw[0] == raw[..|name|][0];
    forall i | 0 <= i < |name| && name[i] == DOT
      ensures name[i + 1..] != d
    {
      assert i + 1 < |name| ==> name[i + 1..][|name| - i - 2] == DOT;
    }
  }

  lemma {:induction false} ComparedStarts(raw: Bytes, name: Bytes)
    requires LoadedFor(raw, name)
    ensures var c := Compared(raw, |name|); |name| <= |c| && c[..|name|] == name
  {
  }

  lemma {:induction false} CoreOnLinux(raw: Bytes, name: Bytes, d: Bytes)
    requires Askable(name) && !Plain(name) && LoadedFor(raw, name) && Listable(d)
    requires d != [] && d[|d| - 1] != DOT && |d| + LeadingDots(name) == EndOfName(name)
    ensures !LinuxBlocks(raw, |name|, {d})
  {
    var compared := Compared(raw, |name|);
    ComparedStarts(raw, name);
    CoreIsOther(compared, name, d);
    LinuxDecides(raw, name, {d});
    OneEntry(compared, d);
  }

  /** Android lower-cases and trims, Linux does neither: the core of such a name is blocked on
      Android only. */
  lemma {:induction false} OtherSpellingDisagrees(raw: Bytes, name: Bytes) returns (d: Bytes)
    requires Askable(name) && !Plain(name) && LoadedFor(raw, name)
    ensures Listable(d) && AndroidBlocks(name, {d}) && !LinuxBlocks(raw, |name|, {d})
  {
    assert !AllDots(name);
    d := FindCore(name);
    CoreOnLinux(raw, name, d);
  }

  lemma {:induction false} DisagreeOtherwise(raw: Bytes, name: Bytes) returns (domains: set<Bytes>)
    requires Askable(name) && LoadedFor(raw, name)
    requires !Plain(name) || DotCount(name, |name|) > MAX_SUFFIXES || !HarmlessExtra(raw, name)
    ensures forall d :: d in domains ==> Listable(d)
    ensures LinuxBlocks(raw, |name|, domains) != AndroidBlocks(name, domains)
  {
    if !Plain(name) {
      var d := OtherSpellingDisagrees(raw, name);
      domains := {d};
    } else if DotCount(name, |name|) > MAX_SUFFIXES {
      domains := ElevenDotsDisagree(raw, name);
    } else if name[0] == DOT {
      DottedNameDisagrees(raw, name);
      domains := {raw[1..]};
    } else {
      HiddenNameDisagrees(raw, name);
      domains := {name};
    }
  }

  /** Both platforms take the same decision on every list exactly when the name is in lower
      case, has no dot at its end (or nothing else), has at most ten dots, and its extra byte
      is harmless. */
  lemma {:induction false} PlatformsAgreeIff(raw: Bytes, name: Bytes)
    requires Askable(name) && LoadedFor(raw, name)
    ensures PlatformsAgree(raw, name) <==>
            && LowercaseAscii(name) && (name[|name| - 1] != DOT || AllDots(name))
            && DotCount(name, |name|) <= MAX_SUFFIXES && HarmlessExtra(raw, name)
    ensures name[0] != DOT ==> (HarmlessExtra(raw, name) <==> |raw| == |name| || raw[|name|] == 0)
  {
    if Plain(name) && DotCount(name, |name|) <= MAX_SUFFIXES && HarmlessExtra(raw, name) {
      forall domains: set<Bytes> | forall d :: d in domains ==> Listable(d)
        ensures LinuxBlocks(raw, |name|, domains) <==> AndroidBlocks(name, domains)
      {
        AgreeWhenHarmless(raw, name, domains);
      }
    } else {
      var domains := DisagreeOtherwise(raw, name);
      assert !(LinuxBlocks(raw, |name|, domains) <==> AndroidBlocks(name, domains));
    }
  }

  /** A listed name of any length is blocked on Android. */
  lemma {:induction false} AnyLengthOnAndroid(name: Bytes)
    requires Canonical(name)
    ensures AndroidBlocks(name, {name})
  {
    AndroidMeaning(name, {name});
  }

  // ----- Names on which the platforms do disagree

  /** a.a.a. and so on, with a dot at every odd index. */
  function Alternating(n: nat): (s: Bytes)
    ensures |s| == n && forall i :: 0 <= i < n ==> s[i] == if i % 2 == 1 then DOT else 97
  {
    seq(n, i => if i % 2 == 1 then DOT else 97)
  }

  lemma {:induction false} AlternatingDots(s: Bytes, k: nat)
    requires 2 * k <= |s| && s == Alternating(|s|)
    ensures DotCount(s, 2 * k) == k
  {
    if k > 0 {
      AlternatingDots(s, k - 1);
      assert s[2 * k - 1] == DOT && s[2 * k - 2] == 97;
      assert DotCount(s, 2 * k - 1) == DotCount(s, 2 * k - 2);
    }
  }

  /** Eleven dots in 23 bytes, loaded as they are. */
  lemma ElevenDotsWitness() returns (domains: set<Bytes>)
    ensures var name := Alternating(23);
            && Plain(name) && LoadedFor(name, name) && DotCount(name, 23) == 11
            && (forall d :: d in domains ==> Listable(d))
            && AndroidBlocks(name, domains) && !LinuxBlocks(name, 23, domains)
  {
    var name := Alternating(23);
    AlternatingDots(name, 11);
    assert DotCount(name, 23) == DotCount(name, 22);
    assert name[..23] == name;
    domains := ElevenDotsDisagree(name, name);
  }

  /** Two letters, with the byte 1 after them. */
  lemma HiddenNameWitness()
    ensures Plain(TWO_LETTERS) && LoadedFor(TWO_LETTERS + [1], TWO_LETTERS)
    ensures AndroidBlocks(TWO_LETTERS, {TWO_LETTERS}) && !LinuxBlocks(TWO_LETTERS + [1], 2, {TWO_LETTERS})
  {
    assert (TWO_LETTERS + [1])[..2] == TWO_LETTERS;
    HiddenNameDisagrees(TWO_LETTERS + [1], TWO_LETTERS);
  }

  /** A capital is seen as its small letter on Android only. */
  lemma CapitalWitness() returns (d: Bytes)
    ensures LoadedFor([65], [65]) && Listable(d)
    ensures AndroidBlocks([65], {d}) && !LinuxBlocks([65], 1, {d})
  {
    var name: Bytes := [65];
    assert name[..1] == name && name[0] == 65;
    d := OtherSpellingDisagrees(name, name);
  }
}

/** What a resolver reads in the hosts file: which addresses the file gives a name. */
module HostsReader {
  import opened Sequences
  import opened SortedStrings
  import opened HostsText
  import opened HostsFile

  // ----- One line: an address and names, parted by blanks; what follows a '#' is a comment

  predicate IsBlank(c: char) {
    c == ' ' || c == '\t' || c == '\r'
  }

  function Uncommented(line: string): string {
    if line == [] || line[0] == '#' then [] else [line[0]] + Uncommented(line[1..])
  }

  /** The index of the first blank, or the length. */
  function BlankAt(s: string): (n: nat)
    ensures n <= |s| && (n < |s| ==> IsBlank(s[n])) && forall i :: 0 <= i < n ==> !IsBlank(s[i])
  {
    if s == [] || IsBlank(s[0]) then 0 else 1 + BlankAt(s[1..])
  }

  function Words(s: string): seq<string>
    decreases |s|
  {
    if s == [] then []
    else if IsBlank(s[0]) then Words(s[1..])
    else
      var n := BlankAt(s);
      [s[..n]] + Words(s[n..])
  }

  /** The line gives the host this address. */
  predicate LineGives(line: string, host: string, address: string) {
    var words := Words(Uncommented(line));
    words != [] && words[0] == address && host in words[1..]
  }

  ghost predicate SomeLineGives(lines: seq<string>, host: string, address: string) {
    exists i :: 0 <= i < |lines| && LineGives(lines[i], host, address)
  }

  /** The text gives the host this address. */
  ghost predicate Gives(text: string, host: string, address: string) {
    SomeLineGives(Lines(text), host, address)
  }

  // ----- Lines of two words

  /** Neither empty nor with a blank, a '#' or a newline in it. */
  predicate IsWord(s: string) {
    s != "" && forall i :: 0 <= i < |s| ==> !IsBlank(s[i]) && s[i] != '#' && s[i] != '\n'
  }

  lemma {:induction false} NoComment(line: string)
    requires '#' !in line
    ensures Uncommented(line) == line
    decreases |line|
  {
    if line != [] {
      NoComment(line[1..]);
    }
  }

  lemma OneWord(s: string)
    requires IsWord(s)
    ensures Words(s) == [s]
  {
    assert BlankAt(s) == |s| && s[..|s|] == s && s[|s|..] == [];
  }

  lemma TwoWords(line: string, address: string, host: string)
    requires IsWord(address) && IsWord(host) && line == address + (" " + host)
    ensures Words(Uncommented(line)) == [address, host]
  {
    NoComment(line);
    var n := |address|;
    assert forall i :: 0 <= i < n ==> line[i] == address[i];
    assert line[n] == ' ' && BlankAt(line) == n;
    assert line[..n] == address && line[n..] == " " + host && line[n..][1..] == host;
    OneWord(host);
  }

  /** A line of two words gives the second the first, and nothing else. */
  lemma TwoWordLineGives(line: string, address: string, host: string, h: string, a: string)
    requires IsWord(address) && IsWord(host) && line == address + (" " + host)
    ensures LineGives(line, h, a) <==> h == host && a == address
  {
    TwoWords(line, address, host);
  }

  lemma CommentGivesNothing(line: string, host: string, address: string)
    requires line == "" || line[0] == '#'
    ensures !LineGives(line, host, address)
  {
  }

  // ----- Texts

  lemma GivesConcat(a: seq<string>, b: seq<string>, host: string, address: string)
    ensures SomeLineGives(a + b, host, address) <==> SomeLineGives(a, host, address) || SomeLineGives(b, host, address)
  {
    var lines := a + b;
    forall i | 0 <= i < |a| && LineGives(a[i], host, address)
      ensures SomeLineGives(lines, host, address)
    {
      assert lines[i] == a[i];
    }
    forall i | 0 <= i < |b| && LineGives(b[i], host, address)
      ensures SomeLineGives(lines, host, address)
    {
      assert lines[|a| + i] == b[i];
    }
  }

  lemma OneLineGives(line: string, host: string, address: string)
    ensures SomeLineGives([line], host, address) <==> LineGives(line, host, address)
  {
    assert [line][0] == line;
  }

  /** The pieces of a text without carriage returns are its lines, and an empty piece if it ends
      in a newline. */
  lemma {:induction false} PiecesAreLines(s: string)
    requires forall i :: 0 <= i < |Split(s)| ==> !EndsWithCr(Split(s)[i])
    ensures Split(s) == Lines(s) || Split(s) == Lines(s) + [""]
    decreases |s|
  {
    var n := NewlineAt(s);
    if n < |s| {
      var rest := s[n + 1..];
      SplitCut(s, n, rest);
      LinesCut(s, n, rest);
      assert Split(s)[0] == s[..n];
      forall i | 0 <= i < |Split(rest)|
        ensures !EndsWithCr(Split(rest)[i])
      {
        assert Split(s)[i + 1] == Split(rest)[i];
      }
      PiecesAreLines(rest);
      ConcatAssoc([s[..n]], Lines(rest), [""]);
    } else {
      assert [] + [""] == [""];
    }
  }

  /** Reading the pieces is reading the text. */
  lemma PiecesGive(text: string, host: string, address: string)
    requires Settled(text)
    ensures SomeLineGives(Split(text), host, address) <==> Gives(text, host, address)
  {
    PiecesAreLines(text);
    GivesConcat(Lines(text), [""], host, address);
    OneLineGives("", host, address);
    CommentGivesNothing("", host, address);
  }

  // ----- The block

  /** The lines of the entries give every domain its two addresses. */
  lemma {:induction false} EntriesGive(ds: seq<string>, host: string, address: string)
    requires forall i :: 0 <= i < |ds| ==> IsWord(ds[i])
    ensures SomeLineGives(EntryLines(ds), host, address) <==>
            host in ds && (address == "127.0.0.1" || address == "::1")
    decreases |ds|
  {
    if ds != [] {
      var d, rest := ds[0], EntryLines(ds[1..]);
      EntriesGive(ds[1..], host, address);
      EntryGives(d, host, address);
      GivesConcat([Ipv6Line(d)], rest, host, address);
      GivesConcat([Ipv4Line(d)], [Ipv6Line(d)] + rest, host, address);
      assert host in ds <==> host == d || host in ds[1..];
    }
  }

  lemma EntryGives(d: string, host: string, address: string)
    requires IsWord(d)
    ensures SomeLineGives([Ipv4Line(d)], host, address) <==> host == d && address == "127.0.0.1"
    ensures SomeLineGives([Ipv6Line(d)], host, address) <==> host == d && address == "::1"
  {
    OneLineGives(Ipv4Line(d), host, address);
    OneLineGives(Ipv6Line(d), host, address);
    assert Ipv4Line(d) == "127.0.0.1" + (" " + d);
    assert Ipv6Line(d) == "::1" + (" " + d);
    TwoWordLineGives(Ipv4Line(d), "127.0.0.1", d, host, address);
    TwoWordLineGives(Ipv6Line(d), "::1", d, host, address);
  }

  lemma MarkersGiveNothing(host: string, address: string)
    ensures !SomeLineGives([MARKER_START], host, address) && !SomeLineGives([MARKER_END], host, address)
  {
    OneLineGives(MARKER_START, host, address);
    OneLineGives(MARKER_END, host, address);
    CommentGivesNothing(MARKER_START, host, address);
    CommentGivesNothing(MARKER_END, host, address);
  }

  // ----- The file

  lemma UpdatedGives(content: string, ds: seq<string>, host: string, address: string)
    requires Settled(UserText(content)) && forall i :: 0 <= i < |ds| ==> IsWord(ds[i])
    ensures Gives(Update(content, ds), host, address) <==>
            || Gives(UserText(content), host, address)
            || (host in ds && (address == "127.0.0.1" || address == "::1"))
  {
    var text := UserText(content);
    PiecesGive(text, host, address);
    if ds == [] {
      LinesOfConcat(text, "");
      SettledStrips(text);
      assert Split(text) + Lines("") == Split(text);
    } else {
      WordsAreLines(ds);
      LinesOfUpdate(content, ds);
      BlockGives(Split(text), ds, host, address);
    }
  }

  lemma WordsAreLines(ds: seq<string>)
    requires forall i :: 0 <= i < |ds| ==> IsWord(ds[i])
    ensures forall i :: 0 <= i < |ds| ==> NewlineFree(ds[i]) && !EndsWithCr(ds[i])
  {
  }

  lemma BlockGives(own: seq<string>, ds: seq<string>, host: string, address: string)
    requires forall i :: 0 <= i < |ds| ==> IsWord(ds[i])
    ensures SomeLineGives(own + ([MARKER_START] + (EntryLines(ds) + [MARKER_END])), host, address) <==>
            || SomeLineGives(own, host, address)
            || (host in ds && (address == "127.0.0.1" || address == "::1"))
  {
    EntriesGive(ds, host, address);
    MarkersGiveNothing(host, address);
    GivesConcat(EntryLines(ds), [MARKER_END], host, address);
    GivesConcat([MARKER_START], EntryLines(ds) + [MARKER_END], host, address);
    GivesConcat(own, [MARKER_START] + (EntryLines(ds) + [MARKER_END]), host, address);
  }

  ghost predicate AllWords(domains: set<string>) {
    forall d <- domains :: IsWord(d)
  }

  /** The updated file gives every listed domain the loopback addresses besides what the user's
      text gives it, and every other name what the user's text gives. */
  lemma BlockedNamesResolve(content: string, domains: set<string>, host: string, address: string)
    requires Settled(UserText(content)) && AllWords(domains)
    ensures Gives(Update(content, Sorted(domains)), host, address) <==>
            || Gives(UserText(content), host, address)
            || (host in domains && (address == "127.0.0.1" || address == "::1"))
  {
    UpdatedGives(content, Sorted(domains), host, address);
  }

  /** After any run in which something was written, the file gives the domains of the last write
      the loopback addresses, besides what the text under the block gives. */
  lemma {:induction false} NamesResolveAfterRun(content: string, ops: seq<Op>, host: string, address: string)
    requires Settled(UserText(content))
    requires forall i :: 0 <= i < |ops| ==> ops[i].Disable? || IsWord(ops[i].domain)
    requires LastWritten(State({}, content), ops).Set?
    ensures Gives(RunFrom(State({}, content), ops).file, host, address) <==>
            || Gives(UserText(BaseText(content, ops)), host, address)
            || (host in LastWritten(State({}, content), ops).domains && (address == "127.0.0.1" || address == "::1"))
  {
    var domains := LastWritten(State({}, content), ops).domains;
    forall i | 0 <= i < |ops|
      ensures Named(ops[i])
    {
      assert ops[i].Disable? || IsWord(ops[i].domain);
    }
    FileAfterRun(content, ops);
    BaseSettled(content, ops);
    WrittenWords(content, ops);
    BlockedNamesResolve(BaseText(content, ops), domains, host, address);
  }

  lemma {:induction false} WrittenWords(content: string, ops: seq<Op>)
    requires forall i :: 0 <= i < |ops| ==> ops[i].Disable? || IsWord(ops[i].domain)
    ensures AllWords(RunFrom(State({}, content), ops).domains)
    ensures LastWritten(State({}, content), ops).Set? ==> AllWords(LastWritten(State({}, content), ops).domains)
    decreases |ops|
  {
    if ops != [] {
      WrittenWords(content, ops[..|ops| - 1]);
    }
  }
}

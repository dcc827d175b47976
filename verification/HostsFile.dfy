/** The hosts-file blocker: its set of domains, the file it rewrites, and runs of its operations. */
module HostsFile {
  import opened HostsText
  import opened Sequences
  import opened SortedStrings

  // ----- The blocker

  datatype State = State(domains: set<string>, file: string)

  /** Whether the file could be read and written during an operation. */
  datatype Access = Access(canRead: bool, canWrite: bool)

  datatype Op = Add(domain: string, access: Access) | Remove(domain: string, access: Access) | Disable(access: Access)

  ghost function Rewritten(s: State, access: Access): State {
    if access.canRead && access.canWrite then s.(file := Update(s.file, Sorted(s.domains))) else s
  }

  /** What an operation leaves behind. */
  ghost function Apply(s: State, op: Op): State {
    match op
    case Add(d, access) =>
      if (d != [] && d[0] == '.') || d in s.domains then s
      else Rewritten(s.(domains := s.domains + {d}), access)
    case Remove(d, access) =>
      if d !in s.domains then s else Rewritten(s.(domains := s.domains - {d}), access)
    case Disable(access) =>
      if !access.canWrite then s.(domains := {})
      else State({}, Update(if access.canRead then s.file else "", []))
  }

  class PfBlocker {
    var domains: set<string>
    var file: string

    ghost function Now(): State
      reads this
    {
      State(domains, file)
    }

    constructor (content: string)
      ensures Now() == State({}, content)
    {
      domains, file := {}, content;
    }

    /** Writes the block for the current set in place of the old one. */
    method UpdateHostsFile(access: Access) returns (ok: bool)
      modifies this`file
      ensures ok == (access.canRead && access.canWrite)
      ensures Now() == Rewritten(old(Now()), access)
    {
      if !access.canRead {
        return false;
      }
      var cleaned := RemoveBlock(file);
      var newBlock := "";
      if domains != {} {
        newBlock := WriteBlock();
      }
      BlockOfSorted(domains);
      var newContent := if newBlock == "" then TrimEnd(cleaned) + "\n" else TrimEnd(cleaned) + "\n" + newBlock;
      ConcatAssoc(TrimEnd(cleaned), "\n", newBlock);
      assert "\n" + "" == "\n";
      if !access.canWrite {
        return false;
      }
      file := newContent;
      ok := true;
    }

    method WriteBlock() returns (block: string)
      requires domains != {}
      ensures block == Block(Sorted(domains))
    {
      block := MARKER_START + "\n";
      var ds := SortStrings(domains);
      ghost var tail := MARKER_END + ("\n" + "");
      ConcatAssoc(MARKER_START, "\n", Entries(ds, tail));
      for i := 0 to |ds|
        invariant block + Entries(ds[i..], tail) == MARKER_START + ("\n" + Entries(ds, tail))
      {
        EntriesStep(block, ds, i, tail);
        block := block + (Ipv4Line(ds[i]) + "\n");
        block := block + (Ipv6Line(ds[i]) + "\n");
      }
      EntriesDone(block, ds, tail);
      block := block + (MARKER_END + "\n");
      assert tail == MARKER_END + "\n";
      BlockOfSorted(domains);
    }

    method AddDomain(domain: string, access: Access) returns (ok: bool)
      modifies this
      ensures Now() == Apply(old(Now()), Add(domain, access))
      ensures !ok ==> Now() == old(Now()).(domains := old(domains) + {domain})
      ensures ok ==> domain in domains || (domain != [] && domain[0] == '.')
    {
      if domain != [] && domain[0] == '.' {
        return true;
      }
      if domain in domains {
        return true;
      }
      domains := domains + {domain};
      ok := UpdateHostsFile(access);
    }

    method RemoveDomain(domain: string, access: Access) returns (ok: bool)
      modifies this
      ensures Now() == Apply(old(Now()), Remove(domain, access))
      ensures !ok ==> Now() == old(Now()).(domains := old(domains) - {domain})
      ensures domain !in domains
    {
      if domain !in domains {
        return true;
      }
      domains := domains - {domain};
      ok := UpdateHostsFile(access);
    }

    /** An unreadable file counts as empty, and a failed write is not reported. */
    method DisableBlocking(access: Access)
      modifies this
      ensures Now() == Apply(old(Now()), Disable(access))
    {
      domains := {};
      var content := if access.canRead then file else "";
      var cleaned := RemoveBlock(content);
      cleaned := TrimEnd(cleaned) + "\n";
      assert "\n" + "" == "\n";
      if access.canWrite {
        file := cleaned;
      }
    }
  }

  lemma EntryWritten(block: string, d: string, rest: string)
    ensures ((block + (Ipv4Line(d) + "\n")) + (Ipv6Line(d) + "\n")) + rest == block + Entry(d, rest)
  {
    var v4, v6 := Ipv4Line(d) + "\n", Ipv6Line(d) + "\n";
    ConcatAssoc(block + v4, v6, rest);
    ConcatAssoc(Ipv6Line(d), "\n", rest);
    ConcatAssoc(block, v4, v6 + rest);
    ConcatAssoc(Ipv4Line(d), "\n", v6 + rest);
  }

  lemma EntriesStep(block: string, ds: seq<string>, i: nat, tail: string)
    requires i < |ds|
    ensures block + Entries(ds[i..], tail) ==
            ((block + (Ipv4Line(ds[i]) + "\n")) + (Ipv6Line(ds[i]) + "\n")) + Entries(ds[i + 1..], tail)
  {
    assert ds[i..][0] == ds[i] && ds[i..][1..] == ds[i + 1..];
    EntryWritten(block, ds[i], Entries(ds[i + 1..], tail));
  }

  lemma EntriesDone(block: string, ds: seq<string>, tail: string)
    ensures block + Entries(ds[|ds|..], tail) == block + tail
  {
  }

  lemma BlockOfSorted(domains: set<string>)
    ensures Block(Sorted(domains)) == [] <==> domains == {}
    ensures domains != {} ==> Sorted(domains) != []
  {
    if domains == {} {
      assert Sorted(domains) == [];
    } else {
      var d :| d in domains;
      assert d in Sorted(domains);
    }
  }

  // ----- Runs

  ghost function RunFrom(s: State, ops: seq<Op>): State {
    if ops == [] then s else Apply(RunFrom(s, ops[..|ops| - 1]), ops[|ops| - 1])
  }

  predicate Named(op: Op) {
    op.Disable? || NewlineFree(op.domain)
  }

  /** A disable that could not read the file and wrote it all the same. */
  predicate Blind(op: Op) {
    op.Disable? && !op.access.canRead && op.access.canWrite
  }

  datatype Written = Nothing | Set(domains: set<string>)

  /** Whether the operation writes the file. */
  ghost predicate Writes(s: State, op: Op) {
    op.access.canWrite && (op.Disable? || (op.access.canRead && s.domains != Apply(s, op).domains))
  }

  /** The set of domains on record after one more operation. */
  ghost function Recorded(w: Written, s: State, op: Op): Written {
    if Writes(s, op) then Set(Apply(s, op).domains) else w
  }

  /** The set of domains at the last write of the run, if there was one. */
  ghost function LastWritten(s: State, ops: seq<Op>): Written {
    if ops == [] then Nothing
    else
      var init := ops[..|ops| - 1];
      Recorded(LastWritten(s, init), RunFrom(s, init), ops[|ops| - 1])
  }

  /** The file after a run, from the original content alone. */
  ghost function FileOf(content: string, w: Written): string {
    match w
    case Nothing => content
    case Set(domains) => Update(content, Sorted(domains))
  }

  ghost predicate AllNamed(domains: set<string>) {
    forall d <- domains :: NewlineFree(d)
  }

  lemma {:induction false} DomainsNamed(content: string, ops: seq<Op>)
    requires forall i :: 0 <= i < |ops| ==> Named(ops[i])
    ensures AllNamed(RunFrom(State({}, content), ops).domains)
    ensures LastWritten(State({}, content), ops).Set? ==> AllNamed(LastWritten(State({}, content), ops).domains)
    decreases |ops|
  {
    if ops != [] {
      DomainsNamed(content, ops[..|ops| - 1]);
    }
  }

  lemma SortedNamed(domains: set<string>)
    requires AllNamed(domains)
    ensures AllNewlineFree(Sorted(domains))
  {
  }

  /** Rewriting a file that a run has left, in terms of the original content. */
  lemma UpdateOfFile(content: string, w: Written, ds: seq<string>)
    requires Settled(UserText(content)) && (w.Set? ==> AllNamed(w.domains))
    ensures Update(FileOf(content, w), ds) == Update(content, ds)
  {
    if w.Set? {
      SortedNamed(w.domains);
      UpdateTwiceIff(content, Sorted(w.domains), ds);
    }
  }

  /** The text under the block: the original content, or nothing after a blind disable. */
  ghost function BaseText(content: string, ops: seq<Op>): string {
    if exists i :: 0 <= i < |ops| && Blind(ops[i]) then "" else content
  }

  lemma BaseStep(content: string, ops: seq<Op>, init: seq<Op>)
    requires ops != [] && init == ops[..|ops| - 1]
    ensures BaseText(content, ops) == if Blind(ops[|ops| - 1]) then "" else BaseText(content, init)
  {
    if i :| 0 <= i < |init| && Blind(init[i]) {
      assert ops[i] == init[i];
    }
  }

  lemma BaseSettled(content: string, ops: seq<Op>)
    requires Settled(UserText(content))
    ensures Settled(UserText(BaseText(content, ops)))
  {
    EmptySettled();
  }

  /** What an operation makes of the file. */
  lemma FileChange(s: State, op: Op, ds: seq<string>)
    requires ds == Sorted(Apply(s, op).domains)
    ensures Writes(s, op) ==> Apply(s, op).file == Update(if Blind(op) then "" else s.file, ds)
    ensures !Writes(s, op) ==> Apply(s, op).file == s.file && !Blind(op)
  {
    assert Sorted({}) == [];
  }

  lemma FileStep(base: string, w: Written, s: State, op: Op)
    requires Settled(UserText(base)) && (w.Set? ==> AllNamed(w.domains))
    requires s.file == FileOf(base, w)
    ensures Apply(s, op).file == FileOf(if Blind(op) then "" else base, Recorded(w, s, op))
  {
    var ds := Sorted(Apply(s, op).domains);
    FileChange(s, op, ds);
    if Writes(s, op) && !Blind(op) {
      UpdateOfFile(base, w, ds);
    }
  }

  /** Convergence: after any run the file is the text under the block updated once, with the
      set of domains at the last write. */
  lemma {:induction false} FileAfterRun(content: string, ops: seq<Op>)
    requires Settled(UserText(content))
    requires forall i :: 0 <= i < |ops| ==> Named(ops[i])
    ensures RunFrom(State({}, content), ops).file ==
            FileOf(BaseText(content, ops), LastWritten(State({}, content), ops))
    decreases |ops|
  {
    if ops != [] {
      var init, s := ops[..|ops| - 1], State({}, content);
      FileAfterRun(content, init);
      DomainsNamed(content, init);
      BaseSettled(content, init);
      BaseStep(content, ops, init);
      FileStep(BaseText(content, init), LastWritten(s, init), RunFrom(s, init), ops[|ops| - 1]);
    }
  }

  /** With every access working, the file lists the current set as soon as anything was written. */
  lemma {:induction false} FileListsCurrentSet(content: string, ops: seq<Op>)
    requires Settled(UserText(content))
    requires forall i :: 0 <= i < |ops| ==> Named(ops[i]) && ops[i].access == Access(true, true)
    ensures var s := RunFrom(State({}, content), ops);
            s.file == Update(content, Sorted(s.domains)) || (s.domains == {} && s.file == content)
  {
    FileAfterRun(content, ops);
    WrittenIsCurrent(content, ops);
  }

  lemma {:induction false} WrittenIsCurrent(content: string, ops: seq<Op>)
    requires forall i :: 0 <= i < |ops| ==> ops[i].access == Access(true, true)
    ensures var s := State({}, content);
            match LastWritten(s, ops)
            case Nothing => RunFrom(s, ops).domains == {}
            case Set(domains) => RunFrom(s, ops).domains == domains
    decreases |ops|
  {
    if ops != [] {
      WrittenIsCurrent(content, ops[..|ops| - 1]);
    }
  }

  /** Disabling after any run leaves the trimmed user text and a newline. */
  lemma DisableRestores(content: string, ops: seq<Op>)
    requires Settled(UserText(content))
    requires forall i :: 0 <= i < |ops| ==> Named(ops[i])
    ensures Apply(RunFrom(State({}, content), ops), Disable(Access(true, true))) ==
            State({}, UserText(BaseText(content, ops)) + "\n")
  {
    FileAfterRun(content, ops);
    DomainsNamed(content, ops);
    BaseSettled(content, ops);
    UpdateOfFile(BaseText(content, ops), LastWritten(State({}, content), ops), []);
    assert "\n" + "" == "\n";
  }

  /** Writing under an empty user text leaves an empty user text. */
  lemma NoTextAfterUpdate(content: string, domains: set<string>)
    requires UserText(content) == "" && AllNamed(domains)
    ensures UserText(Update(content, Sorted(domains))) == ""
  {
    EmptySettled();
    SortedNamed(domains);
    UserTextAgain("", Sorted(domains));
  }

  lemma NoTextAfterDisable(content: string)
    requires UserText(content) == ""
    ensures UserText(Update(content, [])) == "" && UserText(Update("", [])) == ""
  {
    EmptySettled();
    assert Sorted({}) == [];
    NoTextAfterUpdate(content, {});
    NoTextAfterUpdate("", {});
  }

  lemma NoTextRewritten(s: State, access: Access)
    requires UserText(s.file) == "" && AllNamed(s.domains)
    ensures UserText(Rewritten(s, access).file) == "" && AllNamed(Rewritten(s, access).domains)
  {
    NoTextAfterUpdate(s.file, s.domains);
  }

  lemma NoTextStep(s: State, op: Op)
    requires UserText(s.file) == "" && AllNamed(s.domains) && Named(op)
    ensures UserText(Apply(s, op).file) == "" && AllNamed(Apply(s, op).domains)
  {
    match op {
      case Add(d, access) =>
        NoTextRewritten(s.(domains := s.domains + {d}), access);
      case Remove(d, access) =>
        NoTextRewritten(s.(domains := s.domains - {d}), access);
      case Disable(access) =>
        NoTextAfterDisable(s.file);
    }
  }

  lemma {:induction false} NoTextNoMore(s: State, ops: seq<Op>)
    requires UserText(s.file) == "" && AllNamed(s.domains)
    requires forall i :: 0 <= i < |ops| ==> Named(ops[i])
    ensures UserText(RunFrom(s, ops).file) == "" && AllNamed(RunFrom(s, ops).domains)
    decreases |ops|
  {
    if ops != [] {
      NoTextNoMore(s, ops[..|ops| - 1]);
      NoTextStep(RunFrom(s, ops[..|ops| - 1]), ops[|ops| - 1]);
    }
  }

  lemma EmptySettled()
    ensures Settled("") && UserText("") == ""
  {
    assert Split("") == [""];
  }

  /** Without a write the file is the original content. */
  lemma {:induction false} NothingWritten(content: string, ops: seq<Op>)
    requires LastWritten(State({}, content), ops) == Nothing
    ensures RunFrom(State({}, content), ops).file == content
    decreases |ops|
  {
    if ops != [] {
      NothingWritten(content, ops[..|ops| - 1]);
    }
  }

  lemma UpdateShrinksText(file: string, domains: set<string>)
    requires AllNamed(domains)
    ensures |UserText(Update(file, Sorted(domains)))| <= |UserText(file)|
    ensures !Settled(UserText(file)) ==> |UserText(Update(file, Sorted(domains)))| < |UserText(file)|
  {
    SortedNamed(domains);
    UpdateShrinks(file, Sorted(domains));
  }

  /** No operation makes the user's text longer, and one that writes makes an unsettled one shorter. */
  lemma StepShrinks(s: State, op: Op, after: State)
    requires after == Apply(s, op) && AllNamed(after.domains)
    ensures |UserText(after.file)| <= |UserText(s.file)|
    ensures Writes(s, op) && !Settled(UserText(s.file)) ==> |UserText(after.file)| < |UserText(s.file)|
  {
    FileChange(s, op, Sorted(after.domains));
    UpdateShrinksText(s.file, after.domains);
    UpdateShrinksText("", after.domains);
    EmptySettled();
    if !Settled(UserText(s.file)) {
      UnsettledNotEmpty(UserText(s.file));
    }
  }

  /** Any write of a run loses some of an unsettled text. */
  lemma {:induction false} UnsettledShrinks(content: string, ops: seq<Op>)
    requires !Settled(UserText(content)) && LastWritten(State({}, content), ops).Set?
    requires forall i :: 0 <= i < |ops| ==> Named(ops[i])
    ensures |UserText(RunFrom(State({}, content), ops).file)| < |UserText(content)|
    decreases |ops|
  {
    var init, s := ops[..|ops| - 1], State({}, content);
    DomainsNamed(content, ops);
    StepShrinks(RunFrom(s, init), ops[|ops| - 1], RunFrom(s, ops));
    if LastWritten(s, init) == Nothing {
      NothingWritten(content, init);
    } else {
      UnsettledShrinks(content, init);
    }
  }

  /** The user's text survives a run exactly when nothing was written, there was no text, or the
      text is settled and no disable of the run writes without having read. */
  lemma UserTextSurvivesIff(content: string, ops: seq<Op>)
    requires forall i :: 0 <= i < |ops| ==> Named(ops[i])
    ensures UserText(RunFrom(State({}, content), ops).file) == UserText(content) <==>
            || LastWritten(State({}, content), ops) == Nothing
            || UserText(content) == ""
            || (Settled(UserText(content)) && forall i :: 0 <= i < |ops| ==> !Blind(ops[i]))
  {
    var s := State({}, content);
    if LastWritten(s, ops) == Nothing {
      NothingWritten(content, ops);
    } else if UserText(content) == "" {
      NoTextNoMore(s, ops);
    } else if !Settled(UserText(content)) {
      UnsettledShrinks(content, ops);
    } else if forall i :: 0 <= i < |ops| ==> !Blind(ops[i]) {
      SettledSurvives(content, ops);
    } else {
      var i :| 0 <= i < |ops| && Blind(ops[i]);
      BlindLosesText(s, ops, i);
    }
  }

  lemma SettledSurvives(content: string, ops: seq<Op>)
    requires Settled(UserText(content)) && LastWritten(State({}, content), ops).Set?
    requires forall i :: 0 <= i < |ops| ==> Named(ops[i]) && !Blind(ops[i])
    ensures UserText(RunFrom(State({}, content), ops).file) == UserText(content)
  {
    var w := LastWritten(State({}, content), ops);
    FileAfterRun(content, ops);
    DomainsNamed(content, ops);
    UpdateKeepsText(content, w.domains, UserText(content));
  }

  lemma UpdateKeepsText(content: string, domains: set<string>, text: string)
    requires text == UserText(content) && Settled(text) && AllNamed(domains)
    ensures UserText(Update(content, Sorted(domains))) == text
  {
    SortedNamed(domains);
    TrimTwice(RemoveHostsBlock(content));
    UserTextAgain(text, Sorted(domains));
  }

  lemma {:induction false} BlindLosesText(s: State, ops: seq<Op>, i: nat)
    requires AllNamed(s.domains) && i < |ops| && Blind(ops[i])
    requires forall j :: 0 <= j < |ops| ==> Named(ops[j])
    ensures UserText(RunFrom(s, ops).file) == "" && AllNamed(RunFrom(s, ops).domains)
    decreases |ops|
  {
    var init, op := ops[..|ops| - 1], ops[|ops| - 1];
    EmptySettled();
    UserTextAgain("", []);
    if i < |ops| - 1 {
      BlindLosesText(s, init, i);
      NoTextNoMore(RunFrom(s, init), [op]);
      assert [op][..0] == [] && RunFrom(RunFrom(s, init), []) == RunFrom(s, init);
    }
  }

  /** One user line, and a disable that cannot read it. */
  lemma TextLostWitness()
    ensures var ops := [Disable(Access(false, true))];
            && Settled(UserText("a")) && UserText("a") == "a" && Named(ops[0])
            && RunFrom(State({}, "a"), ops) == State({}, "\n")
  {
    assert Lines("a") == ["a"];
    assert Kept(["a"][1..], false) == [] && Kept(["a"], false) == ["a"];
    assert RemoveHostsBlock("a") == "a";
    OnePiece("a");
    EmptySettled();
    var ops := [Disable(Access(false, true))];
    assert ops[..0] == [] && RunFrom(State({}, "a"), []) == State({}, "a");
    assert "" + ("\n" + "") == "\n";
  }

  /** A start marker with a space behind it is a line of the user, and a marker once it is trimmed. */
  lemma UnsettledContent(content: string)
    requires content == MARKER_START + " "
    ensures Lines(content) == [content] && UserText(content) == MARKER_START
    ensures !Settled(MARKER_START)
  {
    var last := |MARKER_START|;
    assert content[last] == ' ' && content[..last] == MARKER_START;
    MarkersAreLines();
    assert NewlineFree(content) && NewlineAt(content) == |content|;
    assert Lines(content) == [content];
    assert Kept([content][1..], false) == [] && Kept([content], false) == [content];
    assert RemoveHostsBlock(content) == content;
    assert TrimEnd(content) == TrimEnd(MARKER_START) == MARKER_START;
    OnePiece(MARKER_START);
    assert IsMarker(Split(MARKER_START)[0]);
  }

  lemma MarkerDropped(lines: seq<string>, line: string)
    requires lines == [line] && IsMarker(line) && StripCr(line) == line
    ensures Kept(StripAll(lines), false) == []
  {
    var own := StripAll(lines);
    assert own == [line] && own[1..] == [];
    assert Kept(own[1..], own[0] == MARKER_START) == [];
  }

  /** Updating over a user text that is a marker leaves nothing of it. */
  lemma MarkerTextLost(content: string, text: string, ds: seq<string>)
    requires UserText(content) == text && NewlineFree(text) && IsMarker(text) && StripCr(text) == text
    requires AllNewlineFree(ds)
    ensures UserText(Update(content, ds)) == ""
  {
    RemoveAgain(text, ds);
    OnePiece(text);
    MarkerDropped(Split(text), text);
  }

  /** That line is lost with one domain added, although every access works. */
  lemma UnsettledWitness(content: string, ops: seq<Op>)
    requires content == MARKER_START + " " && ops == [Add("a", Access(true, true))]
    ensures !Settled(UserText(content)) && Named(ops[0]) && !Blind(ops[0])
    ensures UserText(content) == MARKER_START
    ensures UserText(RunFrom(State({}, content), ops).file) == ""
  {
    UnsettledContent(content);
    MarkersAreLines();
    OneAdd(State({}, content), ops, MARKER_START);
  }

  lemma OneAdd(s: State, ops: seq<Op>, text: string)
    requires s.domains == {} && ops == [Add("a", Access(true, true))]
    requires UserText(s.file) == text && NewlineFree(text) && IsMarker(text) && StripCr(text) == text
    ensures UserText(RunFrom(s, ops).file) == ""
  {
    assert ops[..0] == [] && RunFrom(s, []) == s;
    assert {} + {"a"} == {"a"};
    SortedNamed({"a"});
    MarkerTextLost(s.file, text, Sorted({"a"}));
  }

  // ----- The set after a run

  /** The operation puts the domain into the set, whether it can write the file or not. */
  predicate PutsIn(op: Op, d: string) {
    op.Add? && op.domain == d && (d == "" || d[0] != '.')
  }

  predicate TakesOut(op: Op, d: string) {
    op.Disable? || (op.Remove? && op.domain == d)
  }

  /** Some operation put the domain in, and none after it took it out. */
  ghost predicate PutAndKept(ops: seq<Op>, d: string) {
    exists i :: 0 <= i < |ops| && PutsIn(ops[i], d) && forall j :: i < j < |ops| ==> !TakesOut(ops[j], d)
  }

  lemma PutAndKeptMore(ops: seq<Op>, init: seq<Op>, d: string)
    requires ops != [] && init == ops[..|ops| - 1]
    ensures PutAndKept(ops, d) <==>
            PutsIn(ops[|ops| - 1], d) || (PutAndKept(init, d) && !TakesOut(ops[|ops| - 1], d))
  {
    var last := |ops| - 1;
    if PutAndKept(init, d) && !TakesOut(ops[last], d) {
      var i :| 0 <= i < |init| && PutsIn(init[i], d) && forall j :: i < j < |init| ==> !TakesOut(init[j], d);
      assert PutsIn(ops[i], d);
      forall j | i < j < |ops|
        ensures !TakesOut(ops[j], d)
      {
        assert j < last ==> ops[j] == init[j];
      }
    }
    if PutAndKept(ops, d) && !PutsIn(ops[last], d) {
      var i :| 0 <= i < |ops| && PutsIn(ops[i], d) && forall j :: i < j < |ops| ==> !TakesOut(ops[j], d);
      assert i < last && PutsIn(init[i], d);
      assert forall j :: i < j < |init| ==> init[j] == ops[j];
    }
  }

  /** The set after a run holds exactly the domains that were added, are not dotted, and were
      neither removed nor disabled since; failing reads and writes make no difference. */
  lemma {:induction false} SetAfterRun(content: string, ops: seq<Op>, d: string)
    ensures d in RunFrom(State({}, content), ops).domains <==> PutAndKept(ops, d)
    decreases |ops|
  {
    if ops != [] {
      SetAfterRun(content, ops[..|ops| - 1], d);
      PutAndKeptMore(ops, ops[..|ops| - 1], d);
    }
  }

  /** The file that one domain makes, character for character. */
  lemma OneDomainWritten(content: string, d: string)
    ensures Update(content, Sorted({d})) ==
            UserText(content) + ("\n" + ("# BEGIN antidistractor" + ("\n" +
            (("127.0.0.1 " + d) + ("\n" + (("::1 " + d) + ("\n" + ("# END antidistractor" + ("\n" + "")))))))))
  {
    var ds := Sorted({d});
    assert d in ds && ds == [d];
    OneEntryBlock(ds, d, MARKER_END + ("\n" + ""));
  }

  lemma OneEntryBlock(ds: seq<string>, d: string, tail: string)
    requires ds == [d] && tail == MARKER_END + ("\n" + "")
    ensures Block(ds) == MARKER_START + ("\n" + (("127.0.0.1 " + d) + ("\n" + (("::1 " + d) + ("\n" + tail)))))
  {
    assert ds[1..] == [] && Entries(ds[1..], tail) == tail;
    assert Entries(ds, tail) == Entry(d, tail);
  }

  // ----- What the file says

  /** Different sets leave different files. */
  lemma {:induction false} FileTellsDomains(content: string, ds1: set<string>, ds2: set<string>)
    requires AllNamed(ds1) && AllNamed(ds2)
    requires Update(content, Sorted(ds1)) == Update(content, Sorted(ds2))
    ensures ds1 == ds2
  {
    SortedNamed(ds1);
    SortedNamed(ds2);
    var text := UserText(content);
    CancelPrefix(text, "\n" + Block(Sorted(ds1)), "\n" + Block(Sorted(ds2)));
    CancelPrefix("\n", Block(Sorted(ds1)), Block(Sorted(ds2)));
    BlockInjective(Sorted(ds1), Sorted(ds2));
    assert forall d :: d in ds1 <==> d in Sorted(ds1);
    assert forall d :: d in ds2 <==> d in Sorted(ds2);
  }

  lemma CancelPrefix(p: string, a: string, b: string)
    requires p + a == p + b
    ensures a == b
  {
    assert a == (p + a)[|p|..] && b == (p + b)[|p|..];
  }

  lemma BlockInjective(xs: seq<string>, ys: seq<string>)
    requires AllNewlineFree(xs) && AllNewlineFree(ys) && Block(xs) == Block(ys)
    ensures xs == ys
  {
    if xs != [] && ys != [] {
      var tail := MARKER_END + ("\n" + "");
      CancelPrefix(MARKER_START, "\n" + Entries(xs, tail), "\n" + Entries(ys, tail));
      CancelPrefix("\n", Entries(xs, tail), Entries(ys, tail));
      assert tail[0] == '#';
      EntriesInjective(xs, ys, tail);
    }
  }

  lemma EntryFirst(d: string, rest: string)
    ensures Entry(d, rest) != [] && Entry(d, rest)[0] == '1'
  {
    assert Ipv4Line(d)[0] == '1';
  }

  /** The first line of a text, by its newline. */
  lemma FirstLineEqual(a: string, rest1: string, b: string, rest2: string)
    requires NewlineFree(a) && NewlineFree(b) && a + ("\n" + rest1) == b + ("\n" + rest2)
    ensures a == b && rest1 == rest2
  {
    NewlineInConcat(a, rest1);
    NewlineInConcat(b, rest2);
    assert NewlineAt(a) == |a| && NewlineAt(b) == |b|;
    assert a == (a + ("\n" + rest1))[..|a|];
    assert b == (b + ("\n" + rest2))[..|b|];
    CancelPrefix(a, "\n" + rest1, "\n" + rest2);
    CancelPrefix("\n", rest1, rest2);
  }

  lemma {:induction false} EntriesInjective(xs: seq<string>, ys: seq<string>, tail: string)
    requires AllNewlineFree(xs) && AllNewlineFree(ys) && tail != [] && tail[0] == '#'
    requires Entries(xs, tail) == Entries(ys, tail)
    ensures xs == ys
    decreases |xs|
  {
    if xs != [] {
      EntryFirst(xs[0], Entries(xs[1..], tail));
    }
    if ys != [] {
      EntryFirst(ys[0], Entries(ys[1..], tail));
    }
    if xs != [] && ys != [] {
      EntryEqual(xs[0], Entries(xs[1..], tail), ys[0], Entries(ys[1..], tail));
      EntriesInjective(xs[1..], ys[1..], tail);
      assert xs == [xs[0]] + xs[1..] && ys == [ys[0]] + ys[1..];
    }
  }

  lemma EntryEqual(c: string, rest1: string, d: string, rest2: string)
    requires NewlineFree(c) && NewlineFree(d) && Entry(c, rest1) == Entry(d, rest2)
    ensures c == d && rest1 == rest2
  {
    Ipv4LineShape(c);
    Ipv4LineShape(d);
    Ipv6LineShape(c);
    Ipv6LineShape(d);
    FirstLineEqual(Ipv4Line(c), Ipv6Line(c) + ("\n" + rest1), Ipv4Line(d), Ipv6Line(d) + ("\n" + rest2));
    FirstLineEqual(Ipv6Line(c), rest1, Ipv6Line(d), rest2);
    CancelPrefix("::1 ", c, d);
  }

  /** The file is in step with the set exactly when the last write was made with that set. */
  lemma {:induction false} InStepIff(content: string, ops: seq<Op>)
    requires Settled(UserText(content))
    requires forall i :: 0 <= i < |ops| ==> Named(ops[i])
    requires LastWritten(State({}, content), ops).Set?
    ensures var s := RunFrom(State({}, content), ops);
            s.file == Update(BaseText(content, ops), Sorted(s.domains)) <==>
            LastWritten(State({}, content), ops) == Set(s.domains)
  {
    var s, w := RunFrom(State({}, content), ops), LastWritten(State({}, content), ops);
    var base := BaseText(content, ops);
    FileAfterRun(content, ops);
    DomainsNamed(content, ops);
    if s.file == Update(base, Sorted(s.domains)) {
      FileTellsDomains(base, w.domains, s.domains);
    }
  }

  /** After a failed write the set has moved on, and asking again, however often, writes nothing. */
  lemma {:induction false} RetriesWriteNothing(s: State, d: string, failed: Access, ops: seq<Op>)
    requires d !in s.domains && !(d != [] && d[0] == '.') && !(failed.canRead && failed.canWrite)
    requires forall i :: 0 <= i < |ops| ==> ops[i].Add? && ops[i].domain == d
    ensures RunFrom(Apply(s, Add(d, failed)), ops) == s.(domains := s.domains + {d})
    decreases |ops|
  {
    if ops != [] {
      RetriesWriteNothing(s, d, failed, ops[..|ops| - 1]);
    }
  }

  function EntryLines(ds: seq<string>): seq<string> {
    if ds == [] then [] else ["127.0.0.1 " + ds[0]] + (["::1 " + ds[0]] + EntryLines(ds[1..]))
  }

  lemma {:induction false} LinesOfEntries(ds: seq<string>, rest: string)
    requires forall i :: 0 <= i < |ds| ==> NewlineFree(ds[i]) && !EndsWithCr(ds[i])
    ensures Lines(Entries(ds, rest)) == EntryLines(ds) + Lines(rest)
    decreases |ds|
  {
    if ds != [] {
      var d, after := ds[0], Entries(ds[1..], rest);
      LinesOfEntries(ds[1..], rest);
      Ipv4LineShape(d);
      Ipv6LineShape(d);
      EntryKeepsEnd(d);
      LineInFront(Ipv6Line(d), after);
      LineInFront(Ipv4Line(d), Ipv6Line(d) + ("\n" + after));
      ConcatAssoc([Ipv6Line(d)], EntryLines(ds[1..]), Lines(rest));
      ConcatAssoc([Ipv4Line(d)], [Ipv6Line(d)] + EntryLines(ds[1..]), Lines(rest));
    }
  }

  lemma EntryKeepsEnd(d: string)
    requires !EndsWithCr(d)
    ensures StripCr(Ipv4Line(d)) == Ipv4Line(d) && StripCr(Ipv6Line(d)) == Ipv6Line(d)
  {
  }

  lemma EndLine(tail: string)
    requires tail == MARKER_END + ("\n" + "")
    ensures Lines(tail) == [MARKER_END]
  {
    MarkersAreLines();
    LineInFront(MARKER_END, "");
    assert [MARKER_END] + Lines("") == [MARKER_END];
  }

  lemma LinesOfBlock(ds: seq<string>, tail: string)
    requires ds != [] && forall i :: 0 <= i < |ds| ==> NewlineFree(ds[i]) && !EndsWithCr(ds[i])
    requires tail == MARKER_END + ("\n" + "")
    ensures Lines(MARKER_START + ("\n" + Entries(ds, tail))) == [MARKER_START] + (EntryLines(ds) + [MARKER_END])
  {
    MarkersAreLines();
    LineInFront(MARKER_START, Entries(ds, tail));
    LinesOfEntries(ds, tail);
    EndLine(tail);
  }

  lemma SettledStrips(text: string)
    requires Settled(text)
    ensures StripAll(Split(text)) == Split(text)
  {
  }

  /** An updated file has the user's lines, then the markers around two lines for each domain. */
  lemma LinesOfUpdate(content: string, ds: seq<string>)
    requires Settled(UserText(content)) && ds != []
    requires forall i :: 0 <= i < |ds| ==> NewlineFree(ds[i]) && !EndsWithCr(ds[i])
    ensures Lines(Update(content, ds)) ==
            Split(UserText(content)) + ([MARKER_START] + (EntryLines(ds) + [MARKER_END]))
  {
    LinesOfBlock(ds, MARKER_END + ("\n" + ""));
    SettledStrips(UserText(content));
    LinesOfConcat(UserText(content), Block(ds));
  }
}

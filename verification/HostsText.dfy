/** The text of the hosts file: its lines, the daemon's block in it, and rewriting the block. */
module HostsText {
  import opened Sequences

  const MARKER_START := "# BEGIN antidistractor"
  const MARKER_END := "# END antidistractor"

  // ----- Lines

  /** The index of the first newline, or the length. */
  function NewlineAt(s: string): (n: nat)
    ensures n <= |s| && (n < |s| ==> s[n] == '\n') && forall i :: 0 <= i < n ==> s[i] != '\n'
  {
    if s == [] || s[0] == '\n' then 0 else 1 + NewlineAt(s[1..])
  }

  /** A carriage return before the newline belongs to the line ending. */
  function StripCr(line: string): string {
    if line != [] && line[|line| - 1] == '\r' then line[..|line| - 1] else line
  }

  /** The lines of a text; what follows the last newline is a line only if it is not empty. */
  function Lines(s: string): seq<string> {
    var n := NewlineAt(s);
    if s == [] then []
    else if n == |s| then [s]
    else [StripCr(s[..n])] + Lines(s[n + 1..])
  }

  /** The pieces between newlines. */
  function Split(s: string): (pieces: seq<string>)
    ensures pieces != []
  {
    var n := NewlineAt(s);
    if n == |s| then [s] else [s[..n]] + Split(s[n + 1..])
  }

  function Join(lines: seq<string>): string {
    if lines == [] then []
    else if |lines| == 1 then lines[0]
    else lines[0] + ("\n" + Join(lines[1..]))
  }

  lemma {:induction false} JoinSplit(s: string)
    ensures Join(Split(s)) == s
    decreases |s|
  {
    var n := NewlineAt(s);
    if n < |s| {
      var rest := s[n + 1..];
      JoinSplit(rest);
      SplitCut(s, n, rest);
      JoinCons(s[..n], Split(rest));
      SplitAtNewline(s, n);
    }
  }

  lemma SplitCut(s: string, n: nat, rest: string)
    requires n == NewlineAt(s) && n < |s| && rest == s[n + 1..]
    ensures Split(s) == [s[..n]] + Split(rest)
  {
  }

  lemma JoinCons(line: string, rest: seq<string>)
    requires rest != []
    ensures Join([line] + rest) == line + ("\n" + Join(rest))
  {
    assert ([line] + rest)[1..] == rest;
  }

  lemma SplitAtNewline(s: string, n: nat)
    requires n < |s| && s[n] == '\n'
    ensures s[..n] + ("\n" + s[n + 1..]) == s
  {
  }

  function StripAll(lines: seq<string>): (r: seq<string>)
    ensures |r| == |lines| && forall i :: 0 <= i < |lines| ==> r[i] == StripCr(lines[i])
  {
    seq(|lines|, i requires 0 <= i < |lines| => StripCr(lines[i]))
  }

  lemma NewlineInConcat(a: string, b: string)
    ensures NewlineAt(a + ("\n" + b)) == NewlineAt(a)
  {
    var s, n := a + ("\n" + b), NewlineAt(a);
    var m := NewlineAt(s);
    assert s[|a|] == '\n';
    assert forall i :: 0 <= i < |a| ==> s[i] == a[i];
    if n < |a| {
      assert s[n] == '\n';
    }
  }

  lemma SliceBefore(a: string, t: string, n: nat)
    requires n <= |a|
    ensures (a + t)[..n] == a[..n]
  {
  }

  lemma SliceAfter(a: string, t: string, n: nat)
    requires n <= |a|
    ensures (a + t)[n..] == a[n..] + t
  {
  }

  /** Cutting a concatenation at the first newline of its first part. */
  lemma CutConcat(a: string, b: string)
    ensures var s, n := a + ("\n" + b), NewlineAt(a);
            && NewlineAt(s) == n && n < |s| && s[..n] == a[..n]
            && s[n + 1..] == if n == |a| then b else a[n + 1..] + ("\n" + b)
  {
    var n := NewlineAt(a);
    NewlineInConcat(a, b);
    SliceBefore(a, "\n" + b, n);
    if n == |a| {
      AfterNewline(a, b);
    } else {
      SliceAfter(a, "\n" + b, n + 1);
    }
  }

  lemma AfterNewline(a: string, b: string)
    ensures (a + ("\n" + b))[|a| + 1..] == b
  {
  }

  lemma LinesCut(s: string, n: nat, rest: string)
    requires n == NewlineAt(s) && n < |s| && rest == s[n + 1..]
    ensures Lines(s) == [StripCr(s[..n])] + Lines(rest)
  {
  }

  lemma StripAllHead(line: string, rest: seq<string>)
    ensures StripAll([line] + rest) == [StripCr(line)] + StripAll(rest)
  {
  }

  /** A text, a newline and another text: the pieces of the first, then the lines of the second. */
  lemma {:induction false} LinesOfConcat(a: string, b: string)
    ensures Lines(a + ("\n" + b)) == StripAll(Split(a)) + Lines(b)
    decreases |a|
  {
    var n := NewlineAt(a);
    CutConcat(a, b);
    if n == |a| {
      LinesCut(a + ("\n" + b), n, b);
      SplitWhole(a);
    } else {
      var rest := a[n + 1..];
      LinesCut(a + ("\n" + b), n, rest + ("\n" + b));
      LinesOfConcat(rest, b);
      SplitCut(a, n, rest);
      StripAllHead(a[..n], Split(rest));
      ConcatAssoc([StripCr(a[..n])], StripAll(Split(rest)), Lines(b));
    }
  }

  lemma SplitWhole(a: string)
    requires NewlineAt(a) == |a|
    ensures Split(a) == [a] && a[..|a|] == a && StripAll(Split(a)) == [StripCr(a)]
  {
  }

  // ----- Removing the block

  /** The lines outside blocks, when the scan is inside one or not. */
  function Kept(lines: seq<string>, inBlock: bool): seq<string> {
    if lines == [] then []
    else if lines[0] == MARKER_START then Kept(lines[1..], true)
    else if lines[0] == MARKER_END then Kept(lines[1..], false)
    else (if inBlock then [] else [lines[0]]) + Kept(lines[1..], inBlock)
  }

  /** Whether the scan is inside a block after these lines. */
  function InBlockAfter(lines: seq<string>, inBlock: bool): bool {
    if lines == [] then inBlock
    else InBlockAfter(lines[1..], lines[0] == MARKER_START || (lines[0] != MARKER_END && inBlock))
  }

  function RemoveHostsBlock(content: string): string {
    Join(Kept(Lines(content), false))
  }

  lemma {:induction false} KeptConcat(a: seq<string>, b: seq<string>, inBlock: bool)
    ensures Kept(a + b, inBlock) == Kept(a, inBlock) + Kept(b, InBlockAfter(a, inBlock))
    decreases |a|
  {
    if a == [] {
      assert a + b == b;
    } else {
      assert (a + b)[0] == a[0] && (a + b)[1..] == a[1..] + b;
      KeptConcat(a[1..], b, a[0] == MARKER_START || (a[0] != MARKER_END && inBlock));
    }
  }

  method RemoveBlock(content: string) returns (cleaned: string)
    ensures cleaned == RemoveHostsBlock(content)
  {
    var lines := Lines(content);
    var result: seq<string> := [];
    var inBlock := false;
    for i := 0 to |lines|
      invariant result + Kept(lines[i..], inBlock) == Kept(lines, false)
    {
      var line := lines[i];
      KeptStep(result, lines[i..], inBlock);
      assert lines[i..][1..] == lines[i + 1..];
      if line == MARKER_START {
        inBlock := true;
        continue;
      }
      if line == MARKER_END {
        inBlock := false;
        continue;
      }
      if !inBlock {
        result := result + [line];
      }
    }
    cleaned := Join(result);
    assert result + Kept(lines[|lines|..], inBlock) == result;
  }

  lemma KeptStep(result: seq<string>, lines: seq<string>, inBlock: bool)
    requires lines != []
    ensures result + Kept(lines, inBlock) ==
            if lines[0] == MARKER_START then result + Kept(lines[1..], true)
            else if lines[0] == MARKER_END then result + Kept(lines[1..], false)
            else if inBlock then result + Kept(lines[1..], true)
            else (result + [lines[0]]) + Kept(lines[1..], false)
  {
    if inBlock {
      assert [] + Kept(lines[1..], true) == Kept(lines[1..], true);
    } else {
      ConcatAssoc(result, [lines[0]], Kept(lines[1..], false));
    }
  }

  // ----- Trimming

  /** The characters of Unicode white space. */
  predicate IsWhite(c: char) {
    var u := c as int;
    || 9 <= u <= 13 || u == 32 || u == 0x85 || u == 0xA0 || u == 0x1680 || 0x2000 <= u <= 0x200A
    || u == 0x2028 || u == 0x2029 || u == 0x202F || u == 0x205F || u == 0x3000
  }

  function TrimEnd(s: string): (t: string)
    ensures |t| <= |s| && t == s[..|t|]
    ensures t != [] ==> !IsWhite(t[|t| - 1])
    ensures s != [] && !IsWhite(s[|s| - 1]) ==> t == s
  {
    if s != [] && IsWhite(s[|s| - 1]) then TrimEnd(s[..|s| - 1]) else s
  }

  lemma TrimTwice(s: string)
    ensures TrimEnd(TrimEnd(s)) == TrimEnd(s)
  {
  }

  // ----- The block

  predicate NewlineFree(s: string) {
    forall i :: 0 <= i < |s| ==> s[i] != '\n'
  }

  predicate AllNewlineFree(ds: seq<string>) {
    forall i :: 0 <= i < |ds| ==> NewlineFree(ds[i])
  }

  /** The two lines of a domain. */
  function Ipv4Line(d: string): string {
    "127.0.0.1 " + d
  }

  function Ipv6Line(d: string): string {
    "::1 " + d
  }

  function Entry(d: string, rest: string): string {
    Ipv4Line(d) + ("\n" + (Ipv6Line(d) + ("\n" + rest)))
  }

  function Entries(ds: seq<string>, rest: string): string {
    if ds == [] then rest else Entry(ds[0], Entries(ds[1..], rest))
  }

  /** The block for the domains in this order, each line with its newline; nothing for none. */
  function Block(ds: seq<string>): string {
    if ds == [] then "" else MARKER_START + ("\n" + Entries(ds, MARKER_END + ("\n" + "")))
  }

  /** A single line in front of a text. */
  lemma LineInFront(line: string, rest: string)
    requires NewlineFree(line)
    ensures Lines(line + ("\n" + rest)) == [StripCr(line)] + Lines(rest)
  {
    LinesOfConcat(line, rest);
    assert NewlineAt(line) == |line|;
    assert StripAll([line]) == [StripCr(line)];
  }

  /** A line that starts like a host entry, with or without its end, is no marker. */
  lemma EntryNoMarker(line: string)
    requires |line| >= 4 && (line[0] == '1' || line[0] == ':')
    ensures StripCr(line) != MARKER_START && StripCr(line) != MARKER_END
  {
    assert StripCr(line)[0] == line[0];
    assert MARKER_START[0] == '#' && MARKER_END[0] == '#';
  }

  lemma Ipv4LineShape(d: string)
    requires NewlineFree(d)
    ensures NewlineFree(Ipv4Line(d)) && |Ipv4Line(d)| >= 4 && Ipv4Line(d)[0] == '1'
  {
    assert NewlineFree("127.0.0.1 ");
  }

  lemma Ipv6LineShape(d: string)
    requires NewlineFree(d)
    ensures NewlineFree(Ipv6Line(d)) && |Ipv6Line(d)| >= 4 && Ipv6Line(d)[0] == ':'
  {
    assert NewlineFree("::1 ");
  }

  /** Inside a block, an entry is dropped. */
  lemma EntryDropped(d: string, rest: string)
    requires NewlineFree(d)
    ensures Kept(Lines(Entry(d, rest)), true) == Kept(Lines(rest), true)
  {
    Ipv4LineShape(d);
    Ipv6LineShape(d);
    var v4, v6 := Ipv4Line(d), Ipv6Line(d);
    LineDropped(v6, rest);
    LineDropped(v4, v6 + ("\n" + rest));
  }

  lemma LineDropped(line: string, rest: string)
    requires NewlineFree(line) && |line| >= 4 && (line[0] == '1' || line[0] == ':')
    ensures Kept(Lines(line + ("\n" + rest)), true) == Kept(Lines(rest), true)
  {
    LineInFront(line, rest);
    EntryNoMarker(line);
    DropOne(StripCr(line), Lines(rest));
  }

  lemma {:induction false} EntriesDropped(ds: seq<string>, rest: string)
    requires AllNewlineFree(ds)
    ensures Kept(Lines(Entries(ds, rest)), true) == Kept(Lines(rest), true)
    decreases |ds|
  {
    if ds != [] {
      EntryDropped(ds[0], Entries(ds[1..], rest));
      EntriesDropped(ds[1..], rest);
    }
  }

  lemma DropOne(line: string, rest: seq<string>)
    requires line != MARKER_START && line != MARKER_END
    ensures Kept([line] + rest, true) == Kept(rest, true)
  {
    assert ([line] + rest)[1..] == rest;
  }

  /** A whole block is dropped, wherever the scan was before it. */
  lemma BlockDropped(ds: seq<string>, inBlock: bool)
    requires AllNewlineFree(ds)
    ensures Kept(Lines(Block(ds)), inBlock) == []
  {
    if ds != [] {
      var tail := MARKER_END + ("\n" + "");
      MarkersAreLines();
      LineInFront(MARKER_START, Entries(ds, tail));
      LineInFront(MARKER_END, "");
      EntriesDropped(ds, tail);
      assert ([MARKER_START] + Lines(Entries(ds, tail)))[1..] == Lines(Entries(ds, tail));
      assert ([MARKER_END] + Lines(""))[1..] == [];
    }
  }

  lemma MarkersAreLines()
    ensures NewlineFree(MARKER_START) && NewlineFree(MARKER_END)
    ensures StripCr(MARKER_START) == MARKER_START && StripCr(MARKER_END) == MARKER_END
  {
  }

  // ----- Rewriting the block

  /** The user's part of a hosts file. */
  function UserText(content: string): string {
    TrimEnd(RemoveHostsBlock(content))
  }

  /** The file with its block replaced by one for ds. */
  function Update(content: string, ds: seq<string>): string {
    UserText(content) + ("\n" + Block(ds))
  }

  predicate IsMarker(line: string) {
    line == MARKER_START || line == MARKER_END
  }

  predicate EndsWithCr(line: string) {
    line != [] && line[|line| - 1] == '\r'
  }

  /** No line of the text is a marker, or keeps a carriage return at its end. */
  predicate Settled(text: string) {
    forall i :: 0 <= i < |Split(text)| ==> !IsMarker(Split(text)[i]) && !EndsWithCr(Split(text)[i])
  }

  /** Removing the block again looks only at the user's part. */
  lemma RemoveAgain(text: string, ds: seq<string>)
    requires AllNewlineFree(ds)
    ensures RemoveHostsBlock(text + ("\n" + Block(ds))) == Join(Kept(StripAll(Split(text)), false))
  {
    var own := StripAll(Split(text));
    LinesOfConcat(text, Block(ds));
    KeptConcat(own, Lines(Block(ds)), false);
    BlockDropped(ds, InBlockAfter(own, false));
    assert Kept(own, false) + [] == Kept(own, false);
  }

  lemma {:induction false} NothingDropped(lines: seq<string>)
    requires forall i :: 0 <= i < |lines| ==> !IsMarker(lines[i])
    ensures Kept(lines, false) == lines
    decreases |lines|
  {
    if lines != [] {
      NothingDropped(lines[1..]);
    }
  }

  /** The characters of the lines and a newline for each. */
  function Weight(lines: seq<string>): nat {
    if lines == [] then 0 else |lines[0]| + 1 + Weight(lines[1..])
  }

  lemma {:induction false} JoinWeight(lines: seq<string>)
    ensures |Join(lines)| + 1 == if lines == [] then 1 else Weight(lines)
    decreases |lines|
  {
    if |lines| > 1 {
      JoinWeight(lines[1..]);
    }
  }

  /** Stripping and dropping never add weight, and lose some on an unsettled line. */
  lemma {:induction false} KeptWeight(lines: seq<string>, inBlock: bool)
    ensures Weight(Kept(StripAll(lines), inBlock)) <= Weight(lines)
    ensures (exists i :: 0 <= i < |lines| && (IsMarker(lines[i]) || EndsWithCr(lines[i]))) ==>
              Weight(Kept(StripAll(lines), inBlock)) < Weight(lines)
    decreases |lines|
  {
    if lines != [] {
      var own := StripAll(lines);
      assert own[1..] == StripAll(lines[1..]);
      var after := own[0] == MARKER_START || (own[0] != MARKER_END && inBlock);
      KeptWeight(lines[1..], after);
      KeptHead(own, inBlock);
      if i :| 0 <= i < |lines| && (IsMarker(lines[i]) || EndsWithCr(lines[i])) {
        if i > 0 {
          assert lines[1..][i - 1] == lines[i];
        } else {
          MarkersAreLines();
        }
      }
    }
  }

  lemma KeptHead(own: seq<string>, inBlock: bool)
    requires own != []
    ensures var after := own[0] == MARKER_START || (own[0] != MARKER_END && inBlock);
            Weight(Kept(own, inBlock)) ==
            Weight(Kept(own[1..], after)) + if IsMarker(own[0]) || inBlock then 0 else |own[0]| + 1
  {
    if !IsMarker(own[0]) {
      if inBlock {
        assert [] + Kept(own[1..], true) == Kept(own[1..], true);
      } else {
        assert ([own[0]] + Kept(own[1..], false))[1..] == Kept(own[1..], false);
      }
    }
  }

  /** What is left of a text with its block removed is no longer, and shorter if the text is unsettled. */
  lemma LeftShorter(text: string, left: seq<string>)
    requires left == Kept(StripAll(Split(text)), false)
    ensures |Join(left)| <= |text| && (!Settled(text) ==> |Join(left)| < |text|)
  {
    var pieces := Split(text);
    JoinSplit(text);
    KeptWeight(pieces, false);
    JoinWeight(left);
    JoinWeight(pieces);
    if !Settled(text) {
      UnsettledNotEmpty(text);
    }
  }

  /** The user's part of an updated file is the text it was written with, exactly when that
      is settled. */
  lemma UserTextAgain(text: string, ds: seq<string>)
    requires AllNewlineFree(ds) && TrimEnd(text) == text
    ensures UserText(text + ("\n" + Block(ds))) == text <==> Settled(text)
  {
    var pieces := Split(text);
    RemoveAgain(text, ds);
    if Settled(text) {
      JoinSplit(text);
      assert StripAll(pieces) == pieces;
      NothingDropped(pieces);
    } else {
      LeftShorter(text, Kept(StripAll(pieces), false));
    }
  }

  /** Updating never makes the user's part longer, and makes an unsettled one shorter. */
  lemma UpdateShrinks(content: string, ds: seq<string>)
    requires AllNewlineFree(ds)
    ensures |UserText(Update(content, ds))| <= |UserText(content)|
    ensures !Settled(UserText(content)) ==> |UserText(Update(content, ds))| < |UserText(content)|
  {
    RemoveAgain(UserText(content), ds);
    LeftShorter(UserText(content), Kept(StripAll(Split(UserText(content))), false));
  }

  lemma UnsettledNotEmpty(text: string)
    requires !Settled(text)
    ensures text != []
  {
    if text == [] {
      assert Split(text) == [[]];
    }
  }

  /** Updating an updated file is updating the original, exactly when the user's part of the
      original is settled. */
  lemma UpdateTwiceIff(content: string, ds1: seq<string>, ds2: seq<string>)
    requires AllNewlineFree(ds1)
    ensures Update(Update(content, ds1), ds2) == Update(content, ds2) <==> Settled(UserText(content))
  {
    var text := UserText(content);
    TrimTwice(RemoveHostsBlock(content));
    UserTextAgain(text, ds1);
    var again := UserText(Update(content, ds1));
    var tail := "\n" + Block(ds2);
    if again + tail == text + tail {
      assert |again| == |text|;
      assert again == (again + tail)[..|again|] == text;
    }
  }

  // ----- Ordinary files are settled

  ghost predicate CrFree(s: string) {
    forall i :: 0 <= i < |s| ==> s[i] != '\r'
  }

  lemma {:induction false} LinesOfPlain(s: string)
    requires CrFree(s)
    ensures forall i :: 0 <= i < |Lines(s)| ==> NewlineFree(Lines(s)[i]) && CrFree(Lines(s)[i])
    decreases |s|
  {
    var n := NewlineAt(s);
    if n < |s| {
      LinesOfPlain(s[n + 1..]);
    }
  }

  lemma {:induction false} KeptLines(lines: seq<string>, inBlock: bool)
    ensures forall l :: l in Kept(lines, inBlock) ==> l in lines && !IsMarker(l)
    decreases |lines|
  {
    if lines != [] {
      KeptLines(lines[1..], lines[0] == MARKER_START || (lines[0] != MARKER_END && inBlock));
    }
  }

  lemma {:induction false} TrimConcat(a: string, b: string)
    ensures TrimEnd(a + b) == if TrimEnd(b) != [] then a + TrimEnd(b) else TrimEnd(a)
    decreases |b|
  {
    if b == [] {
      assert a + b == a;
    } else {
      var init, last := b[..|b| - 1], b[|b| - 1];
      assert b == init + [last];
      TrimLast(a + init, last);
      TrimLast(init, last);
      ConcatAssoc(a, init, [last]);
      TrimConcat(a, init);
    }
  }

  lemma TrimLast(s: string, c: char)
    ensures TrimEnd(s + [c]) == if IsWhite(c) then TrimEnd(s) else s + [c]
  {
    assert (s + [c])[..|s|] == s;
  }

  /** The piece is one of the lines, one of them trimmed, or empty. */
  ghost predicate ComesFrom(piece: string, lines: seq<string>) {
    piece == [] || exists l :: l in lines && (piece == l || piece == TrimEnd(l))
  }

  lemma OnePiece(s: string)
    requires NewlineFree(s)
    ensures Split(s) == [s]
  {
    assert NewlineAt(s) == |s|;
  }

  lemma PiecesOfConcat(a: string, b: string)
    requires NewlineFree(a)
    ensures Split(a + ("\n" + b)) == [a] + Split(b)
  {
    var s := a + ("\n" + b);
    NewlineInConcat(a, b);
    assert NewlineAt(a) == |a| && s[..|a|] == a && s[|a| + 1..] == b;
  }

  /** Trimming two texts joined by a newline. */
  lemma TrimJoined(a: string, rest: string)
    ensures TrimEnd(a + ("\n" + rest)) == if TrimEnd(rest) != [] then a + ("\n" + TrimEnd(rest)) else TrimEnd(a)
  {
    TrimConcat("\n", rest);
    TrimConcat(a, "\n" + rest);
    assert TrimEnd("\n") == [];
  }

  lemma PiecesOfTrimmed(a: string, rest: string)
    requires NewlineFree(a)
    ensures Split(TrimEnd(a + ("\n" + rest))) ==
            if TrimEnd(rest) != [] then [a] + Split(TrimEnd(rest)) else [TrimEnd(a)]
  {
    TrimJoined(a, rest);
    PiecesOfConcat(a, TrimEnd(rest));
    OnePiece(TrimEnd(a));
  }

  lemma ComesFromMore(p: string, line: string, rest: seq<string>)
    requires ComesFrom(p, rest) || p == line || p == TrimEnd(line)
    ensures ComesFrom(p, [line] + rest)
  {
    if ComesFrom(p, rest) && p != [] {
      var l :| l in rest && (p == l || p == TrimEnd(l));
      assert l in [line] + rest;
    } else {
      assert line in [line] + rest;
    }
  }

  lemma {:induction false} TrimmedPieces(lines: seq<string>)
    requires forall l :: l in lines ==> NewlineFree(l)
    ensures forall p :: p in Split(TrimEnd(Join(lines))) ==> ComesFrom(p, lines)
    decreases |lines|
  {
    if lines == [] {
    } else if |lines| == 1 {
      assert lines[0] in lines;
      OnePiece(TrimEnd(lines[0]));
    } else {
      var line, rest := lines[0], lines[1..];
      assert line in lines && lines == [line] + rest;
      TrimmedPieces(rest);
      JoinCons(line, rest);
      PiecesOfTrimmed(line, Join(rest));
      forall p | p in Split(TrimEnd(Join(lines)))
        ensures ComesFrom(p, lines)
      {
        MemberOfCons(p, line, Split(TrimEnd(Join(rest))));
        ComesFromMore(p, line, rest);
      }
    }
  }

  lemma MemberOfCons(p: string, first: string, rest: seq<string>)
    ensures p in [first] + rest <==> p == first || p in rest
  {
  }

  /** Content without carriage returns and without a line that is a marker followed by white
      space is settled. */
  lemma PlainContentSettled(content: string)
    requires CrFree(content)
    requires forall l :: l in Lines(content) && !IsMarker(l) ==> !IsMarker(TrimEnd(l))
    ensures Settled(UserText(content))
  {
    var lines := Kept(Lines(content), false);
    LinesOfPlain(content);
    KeptLines(Lines(content), false);
    TrimmedPieces(lines);
    var pieces := Split(UserText(content));
    forall i | 0 <= i < |pieces|
      ensures !IsMarker(pieces[i]) && !EndsWithCr(pieces[i])
    {
      var p := pieces[i];
      assert p in pieces && ComesFrom(p, lines);
      if p != [] {
        var l :| l in lines && (p == l || p == TrimEnd(l));
        assert l in Lines(content) && CrFree(l);
      }
    }
  }
}

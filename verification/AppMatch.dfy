/** Which programs the blocked set matches: by exact path, by file name, or by name prefix. */
module AppMatch {
  import opened Sequences
  import opened ByteStrings
  import opened ControlState

  // ----- The file name of a path

  function SlashAt(s: string): (n: nat)
    ensures n <= |s| && (n < |s| ==> s[n] == '/') && forall i :: 0 <= i < n ==> s[i] != '/'
  {
    if s == [] || s[0] == '/' then 0 else 1 + SlashAt(s[1..])
  }

  /** The components of a path; empty ones and "." do not count. */
  function Components(path: string): seq<string> {
    var n := SlashAt(path);
    var first := if path[..n] == "" || path[..n] == "." then [] else [path[..n]];
    if n == |path| then first else first + Components(path[n + 1..])
  }

  /** The last component, unless it is "..". */
  function FileName(path: string): Option<string> {
    var c := Components(path);
    if c == [] || c[|c| - 1] == ".." then None else Some(c[|c| - 1])
  }

  predicate IsName(s: string) {
    s != "" && s != "." && s != ".." && forall i :: 0 <= i < |s| ==> s[i] != '/'
  }

  lemma SlashInConcat(a: string, b: string)
    ensures SlashAt(a + ("/" + b)) == SlashAt(a)
  {
    var s, n := a + ("/" + b), SlashAt(a);
    var m := SlashAt(s);
    assert s[|a|] == '/';
    assert forall i :: 0 <= i < |a| ==> s[i] == a[i];
    if n < |a| {
      assert s[n] == '/';
    }
  }

  lemma CutConcat(a: string, b: string, n: nat)
    requires n <= |a|
    ensures (a + ("/" + b))[..n] == a[..n]
    ensures n < |a| ==> (a + ("/" + b))[n + 1..] == a[n + 1..] + ("/" + b)
    ensures n == |a| ==> (a + ("/" + b))[n + 1..] == b
  {
  }

  lemma {:induction false} ComponentsOfConcat(a: string, b: string)
    ensures Components(a + ("/" + b)) == Components(a) + Components(b)
    decreases |a|
  {
    var n := SlashAt(a);
    SlashInConcat(a, b);
    CutConcat(a, b, n);
    if n < |a| {
      ComponentsOfConcat(a[n + 1..], b);
      var first := if a[..n] == "" || a[..n] == "." then [] else [a[..n]];
      ConcatAssoc(first, Components(a[n + 1..]), Components(b));
    }
  }

  lemma ComponentsOfName(name: string)
    requires IsName(name)
    ensures Components(name) == [name]
  {
    assert SlashAt(name) == |name| && name[..|name|] == name;
  }

  /** In any directory, written with or without a trailing slash, a file has its own name. */
  lemma FileNameInDirectory(dir: string, name: string)
    requires IsName(name)
    ensures FileName(dir + ("/" + name)) == Some(name)
    ensures FileName(dir + ("/" + (name + ("/" + "")))) == Some(name)
  {
    ComponentsOfConcat(dir, name);
    ComponentsOfName(name);
    ComponentsOfConcat(name, "");
    ComponentsOfConcat(dir, name + ("/" + ""));
    assert Components("") == [];
    ConcatAssoc(Components(dir), [name], []);
    assert Components(dir) + [name] + [] == Components(dir) + [name];
  }

  /** A path that ends in "..", or in nothing but slashes and dots for the same directory, has no
      file name; "." at the end does not count. */
  lemma NoFileName(dir: string)
    ensures FileName(dir + ("/" + "..")) == None
    ensures FileName(dir + ("/" + ".")) == FileName(dir)
    ensures FileName("") == None && FileName("/") == None && FileName(".") == None
  {
    ComponentsOfConcat(dir, "..");
    ComponentsOfConcat(dir, ".");
    ComponentsOfConcat("", "");
    assert SlashAt("..") == 2 && ".."[..2] == "..";
    assert SlashAt(".") == 1 && "."[..1] == ".";
    assert Components("..") == [".."] && Components(".") == [];
    assert Components("") == [] && "" + ("/" + "") == "/";
    assert (Components(dir) + [".."])[|Components(dir)|] == "..";
    assert Components(dir) + [] == Components(dir);
  }

  // ----- Matching

  /** A pattern that ends with '*' matches the names that start with the rest of it. */
  predicate PatternMatches(pattern: string, name: string) {
    IsPattern(pattern) && pattern[..|pattern| - 1] <= name
  }

  predicate NameBlocked(apps: Apps, name: string) {
    name in apps.names || exists p <- apps.patterns :: PatternMatches(p, name)
  }

  /** The rule for a program about to be executed. */
  predicate Blocked(apps: Apps, path: string) {
    path in apps.paths || (FileName(path).Some? && NameBlocked(apps, FileName(path).value))
  }

  /** The rule for a running process, which also has a short name. */
  predicate ProcessBlocked(apps: Apps, exePath: string, comm: string) {
    || exePath in apps.paths
    || (exePath != "" && FileName(exePath).Some? && NameBlocked(apps, FileName(exePath).value))
    || NameBlocked(apps, comm)
  }

  method MatchPatterns(patterns: set<string>, name: string) returns (found: bool)
    ensures found <==> exists p <- patterns :: PatternMatches(p, name)
  {
    var left := patterns;
    while left != {}
      invariant left <= patterns
      invariant forall p <- patterns - left :: !PatternMatches(p, name)
      decreases left
    {
      var pattern :| pattern in left;
      left := left - {pattern};
      if pattern != "" && pattern[|pattern| - 1] == '*' {
        var prefix := pattern[..|pattern| - 1];
        if prefix <= name {
          assert PatternMatches(pattern, name);
          return true;
        }
      }
    }
    found := false;
  }

  method CheckPath(apps: Apps, path: string) returns (blocked: bool)
    ensures blocked <==> Blocked(apps, path)
  {
    if path in apps.paths {
      return true;
    }
    match FileName(path) {
      case None =>
        blocked := false;
      case Some(name) =>
        if name in apps.names {
          return true;
        }
        blocked := MatchPatterns(apps.patterns, name);
    }
  }

  method CheckProcess(apps: Apps, exePath: string, comm: string) returns (blocked: bool)
    ensures blocked <==> ProcessBlocked(apps, exePath, comm)
  {
    if exePath in apps.paths {
      return true;
    }
    if exePath != "" {
      match FileName(exePath) {
        case None =>
        case Some(name) =>
          if name in apps.names {
            return true;
          }
          var matched := MatchPatterns(apps.patterns, name);
          if matched {
            return true;
          }
      }
    }
    if comm in apps.names {
      return true;
    }
    blocked := MatchPatterns(apps.patterns, comm);
  }

  // ----- The two rules agree

  /** The short name that the process list gives a process. */
  function CommOf(exePath: string): string {
    match FileName(exePath)
    case Some(name) => if exePath != "" then name else ""
    case None => ""
  }

  lemma EmptyNameBlockedIff(apps: Apps)
    ensures NameBlocked(apps, "") <==> "" in apps.names || "*" in apps.patterns
  {
    if "*" in apps.patterns {
      assert PatternMatches("*", "");
    }
    if exists p <- apps.patterns :: PatternMatches(p, "") {
      var p :| p in apps.patterns && PatternMatches(p, "");
      assert p == "*";
    }
  }

  /** The rule for listed processes is the rule for executed programs, except that a process
      without a file name passes for one with the empty name. */
  lemma RulesAgreeIff(apps: Apps, exePath: string)
    ensures ProcessBlocked(apps, exePath, CommOf(exePath)) == Blocked(apps, exePath) <==>
            || FileName(exePath).Some? || exePath in apps.paths
            || !("" in apps.names || "*" in apps.patterns)
  {
    EmptyNameBlockedIff(apps);
    assert FileName("") == None by {
      assert Components("") == [];
    }
  }

  /** Blocking a name through the control socket blocks every program of that name, or with
      that prefix, wherever it stands. */
  lemma InsertedNameBlocks(apps: Apps, entry: string, dir: string, name: string)
    requires IsName(name)
    requires entry == name || PatternMatches(entry, name)
    ensures Blocked(InsertName(apps, entry), dir + ("/" + name))
  {
    FileNameInDirectory(dir, name);
    if IsPattern(entry) {
      if entry == name {
        assert PatternMatches(entry, name);
      }
      assert entry in InsertName(apps, entry).patterns;
    }
  }
}

/** What the commands for applications do to the programs that are blocked. */
module AppCommands {
  import opened AppMatch
  import opened ControlState
  import opened DomainRuns

  /** An entry that ends with a star covers the names that start with the rest of it, any other
      entry just itself. */
  predicate Covers(entry: string, name: string) {
    if entry != "" && entry[|entry| - 1] == '*' then entry[..|entry| - 1] <= name else entry == name
  }

  ghost predicate CoveredBy(entries: set<string>, name: string) {
    exists e :: e in entries && Covers(e, name)
  }

  lemma EntryCovers(apps: Apps, name: string)
    requires Separated(apps)
    ensures NameBlocked(apps, name) <==> CoveredBy(apps.names + apps.patterns, name)
  {
    var entries := apps.names + apps.patterns;
    if name in apps.names {
      assert name in entries && Covers(name, name);
    }
    forall p | p in apps.patterns && PatternMatches(p, name)
      ensures CoveredBy(entries, name)
    {
      assert p in entries && Covers(p, name);
    }
    forall e | e in entries && Covers(e, name)
      ensures NameBlocked(apps, name)
    {
      assert e in apps.patterns ==> PatternMatches(e, name);
    }
  }

  /** A program in any directory is blocked exactly by its path or by an entry that covers its name. */
  lemma BlockedInDirectoryIff(apps: Apps, dir: string, name: string)
    requires Separated(apps) && IsName(name)
    ensures Blocked(apps, dir + ("/" + name)) <==>
            dir + ("/" + name) in apps.paths || CoveredBy(apps.names + apps.patterns, name)
  {
    FileNameInDirectory(dir, name);
    EntryCovers(apps, name);
  }

  /** The same for a running process, whose short name counts as well; a path that could not be
      found counts only if it is itself listed. */
  lemma ProcessInDirectoryIff(apps: Apps, dir: string, name: string, comm: string)
    requires Separated(apps) && IsName(name)
    ensures var path, entries := dir + ("/" + name), apps.names + apps.patterns;
            ProcessBlocked(apps, path, comm) <==>
            path in apps.paths || CoveredBy(entries, name) || CoveredBy(entries, comm)
    ensures ProcessBlocked(apps, "", comm) <==> "" in apps.paths || CoveredBy(apps.names + apps.patterns, comm)
  {
    FileNameInDirectory(dir, name);
    EntryCovers(apps, name);
    EntryCovers(apps, comm);
  }

  // ----- The four commands

  /** Blocking adds to the three sets what the lists name, each name by its last character; the
      rest of the state stays. */
  lemma BlockAppMeaning(ps: seq<string>, ns: seq<string>, s: Shared)
    ensures Exec(BlockApp(ps, ns), s).0 ==
            s.(apps := Apps(s.apps.paths + Listed(ps), s.apps.names + ExactNames(ns), s.apps.patterns + PatternNames(ns)))
    ensures Exec(BlockApp(ps, ns), s).1 == Resp(true, [])
  {
    InsertPathsMeaning(s.apps, ps);
    InsertNamesMeaning(InsertPaths(s.apps, ps), ns);
  }

  /** Unblocking takes out of the three sets what the lists name, and nothing else. */
  lemma UnblockAppMeaning(ps: seq<string>, ns: seq<string>, s: Shared)
    ensures Exec(UnblockApp(ps, ns), s).0 ==
            s.(apps := Apps(s.apps.paths - Listed(ps), s.apps.names - ExactNames(ns), s.apps.patterns - PatternNames(ns)))
    ensures Exec(UnblockApp(ps, ns), s).1 == Resp(true, [])
  {
    RemovePathsMeaning(s.apps, ps);
    RemoveNamesMeaning(RemovePaths(s.apps, ps), ns);
  }

  /** The commands without paths are the others with none. */
  lemma NamesOnly(ns: seq<string>, s: Shared)
    ensures Exec(BlockApps(ns), s) == Exec(BlockApp([], ns), s)
    ensures Exec(UnblockApps(ns), s) == Exec(UnblockApp([], ns), s)
  {
  }

  /** The entries after a command, patterns and names together. */
  lemma Entries(apps: Apps, ns: seq<string>)
    requires Separated(apps)
    ensures (apps.names + ExactNames(ns)) + (apps.patterns + PatternNames(ns)) ==
            (apps.names + apps.patterns) + Listed(ns)
    ensures (apps.names - ExactNames(ns)) + (apps.patterns - PatternNames(ns)) ==
            (apps.names + apps.patterns) - Listed(ns)
  {
  }

  /** After BlockApp a program is blocked exactly if it was, or the lists name its path or have
      an entry that covers its name. */
  lemma BlockedAfterBlocking(ps: seq<string>, ns: seq<string>, s: Shared, dir: string, name: string)
    requires Separated(s.apps) && IsName(name)
    ensures Blocked(Exec(BlockApp(ps, ns), s).0.apps, dir + ("/" + name)) <==>
            || Blocked(s.apps, dir + ("/" + name))
            || dir + ("/" + name) in ps || CoveredBy(Listed(ns), name)
  {
    var s' := Exec(BlockApp(ps, ns), s).0;
    BlockAppMeaning(ps, ns, s);
    AppsStaySeparated(BlockApp(ps, ns), s);
    BlockedInDirectoryIff(s.apps, dir, name);
    BlockedInDirectoryIff(s'.apps, dir, name);
    Entries(s.apps, ns);
    CoveredByUnion(s.apps.names + s.apps.patterns, Listed(ns), name);
  }

  lemma CoveredByUnion(a: set<string>, b: set<string>, name: string)
    ensures CoveredBy(a + b, name) <==> CoveredBy(a, name) || CoveredBy(b, name)
  {
    forall e | e in a + b && Covers(e, name)
      ensures CoveredBy(a, name) || CoveredBy(b, name)
    {
      assert e in a || e in b;
    }
    forall e | (e in a || e in b) && Covers(e, name)
      ensures CoveredBy(a + b, name)
    {
      assert e in a + b;
    }
  }

  /** After UnblockApp a program is blocked exactly by its path, if that was blocked and is not
      named, or by an entry that is not named. */
  lemma BlockedAfterUnblocking(ps: seq<string>, ns: seq<string>, s: Shared, dir: string, name: string)
    requires Separated(s.apps) && IsName(name)
    ensures Blocked(Exec(UnblockApp(ps, ns), s).0.apps, dir + ("/" + name)) <==>
            || (dir + ("/" + name) in s.apps.paths && dir + ("/" + name) !in ps)
            || CoveredBy((s.apps.names + s.apps.patterns) - Listed(ns), name)
  {
    UnblockAppMeaning(ps, ns, s);
    AppsStaySeparated(UnblockApp(ps, ns), s);
    BlockedInDirectoryIff(Exec(UnblockApp(ps, ns), s).0.apps, dir, name);
    Entries(s.apps, ns);
  }

  /** Unblocking what was just blocked restores the sets exactly when they had none of it. */
  lemma UnblockUndoesBlockIff(ps: seq<string>, ns: seq<string>, s: Shared)
    ensures Exec(UnblockApp(ps, ns), Exec(BlockApp(ps, ns), s).0).0 == s <==>
            Listed(ps) !! s.apps.paths && ExactNames(ns) !! s.apps.names && PatternNames(ns) !! s.apps.patterns
  {
    BlockAppMeaning(ps, ns, s);
    UnblockAppMeaning(ps, ns, Exec(BlockApp(ps, ns), s).0);
    AddThenRemove(s.apps.paths, Listed(ps));
    AddThenRemove(s.apps.names, ExactNames(ns));
    AddThenRemove(s.apps.patterns, PatternNames(ns));
  }

  lemma AddThenRemove(a: set<string>, b: set<string>)
    ensures (a + b) - b == a <==> b !! a
  {
  }

  /** Unblocking the paths and the names that Status reports leaves nothing blocked. */
  lemma UnblockAllReported(p: StatusPayload, s: Shared, frozen: set<string>)
    requires Separated(s.apps) && Reports(p, s, frozen)
    ensures Exec(UnblockApp(p.paths, p.names), s).0.apps == Apps({}, {}, {})
  {
    UnblockAppMeaning(p.paths, p.names, s);
    forall n | n in s.apps.names || n in s.apps.patterns
      ensures n in p.names
    {
      assert n in multiset(s.apps.names) + multiset(s.apps.patterns);
    }
  }

  /** The flag that Status reports is set exactly when turning focus mode on with no domains
      changes nothing. */
  lemma FlagReported(p: StatusPayload, s: Shared, frozen: set<string>)
    requires Reports(p, s, frozen)
    ensures p.focusMode <==> Exec(FocusMode(true, []), s).0 == s
  {
    assert s.dynamicBlocked + [] == s.dynamicBlocked;
  }
}

/** What holds of the blocklist and the dynamic list over whole runs of commands. */
module DomainRuns {
  import opened ByteStrings
  import opened BlocklistKeys
  import opened ControlState
  import opened LockMachine
  import opened ControlPrograms

  function Names(list: seq<Name>): set<Name> {
    set d | d in list
  }

  /** The domains a command adds or removes by name. */
  function Named(cmd: Cmd): set<Name> {
    match cmd
    case Block(ds) => Names(ds)
    case Unblock(ds) => Names(ds)
    case Sync(ds, _) => Names(ds)
    case FocusMode(true, ds) => Names(ds)
    case _ => {}
  }

  /** Exact names never end with '*', patterns always do. */
  ghost predicate Separated(apps: Apps) {
    && (forall n :: n in apps.names ==> !IsPattern(n))
    && (forall n :: n in apps.patterns ==> IsPattern(n))
  }

  /** The map holds the keys of the defaults and of the dynamic list, which do not overlap. */
  ghost predicate MapInv(defaults: set<Name>, blocklist: set<Key>, dyn: seq<Name>) {
    && blocklist == KeysOf(defaults + Names(dyn))
    && |blocklist| <= MAX_ENTRIES
    && AllStorable(Names(dyn))
    && Names(dyn) !! defaults
  }

  ghost predicate Inv(defaults: set<Name>, s: Shared) {
    MapInv(defaults, s.blocklist, s.dynamicBlocked) && Separated(s.apps)
  }

  // ----- What the loops do

  lemma KeysOfUnion(a: set<Name>, b: set<Name>)
    ensures KeysOf(a + b) == KeysOf(a) + KeysOf(b)
  {
  }

  lemma NamesConcat(a: seq<Name>, b: seq<Name>)
    ensures Names(a + b) == Names(a) + Names(b)
  {
  }

  /** Splitting the first domain off the loop that adds. */
  lemma AddAllStep(b: set<Key>, ds: seq<Name>)
    requires ds != []
    ensures var one := AddOne(Start(b), ds[0]);
            var r := AddAll(Start(one.blocklist), ds[1..]);
            AddAll(Start(b), ds) == Progress(r.blocklist, one.added + r.added, one.errors + r.errors)
  {
    var one := AddOne(Start(b), ds[0]);
    AddAllAppends(one.blocklist, one.added, one.errors, ds[1..]);
  }

  lemma NamesStep(ds: seq<Name>)
    requires ds != []
    ensures Names(ds) == {ds[0]} + Names(ds[1..])
    ensures KeysOf(Names(ds)) == {KeyOf(ds[0])} + KeysOf(Names(ds[1..]))
  {
    assert Names(ds) == {ds[0]} + Names(ds[1..]);
  }

  /** Adding stores the keys of exactly what it reports as added. */
  lemma {:induction false} AddAllKeys(b: set<Key>, ds: seq<Name>)
    ensures var r := AddAll(Start(b), ds);
            r.blocklist == b + KeysOf(Names(r.added)) && Names(r.added) <= Names(ds)
    decreases |ds|
  {
    if ds != [] {
      var one := AddOne(Start(b), ds[0]);
      var r := AddAll(Start(one.blocklist), ds[1..]);
      AddAllStep(b, ds);
      AddAllKeys(one.blocklist, ds[1..]);
      NamesStep(ds);
      NamesConcat(one.added, r.added);
      KeysOfUnion(Names(one.added), Names(r.added));
      if one.added != [] {
        NamesStep([ds[0]]);
      }
    }
  }

  /** The map never outgrows its capacity, and adding never fails on a key that is there. */
  lemma {:induction false} AddAllBounds(b: set<Key>, ds: seq<Name>)
    ensures |b| <= MAX_ENTRIES ==> |AddAll(Start(b), ds).blocklist| <= MAX_ENTRIES
    ensures forall d :: d in ds && KeyOf(d) in b ==> d in AddAll(Start(b), ds).added
    decreases |ds|
  {
    if ds != [] {
      AddAllStep(b, ds);
      AddAllBounds(AddOne(Start(b), ds[0]).blocklist, ds[1..]);
    }
  }

  /** When all the keys fit, everything is added. */
  lemma {:induction false} AddAllFits(b: set<Key>, ds: seq<Name>)
    requires |b + KeysOf(Names(ds))| <= MAX_ENTRIES
    ensures AddAll(Start(b), ds).added == ds && AddAll(Start(b), ds).errors == []
    decreases |ds|
  {
    if ds != [] {
      FitsStep(b, ds);
      AddAllStep(b, ds);
      AddAllFits(b + {KeyOf(ds[0])}, ds[1..]);
    }
  }

  /** If all the keys fit, the first one does and the others still do after it. */
  lemma FitsStep(b: set<Key>, ds: seq<Name>)
    requires ds != [] && |b + KeysOf(Names(ds))| <= MAX_ENTRIES
    ensures InsertKey(b, KeyOf(ds[0])) == Some(b + {KeyOf(ds[0])})
    ensures |(b + {KeyOf(ds[0])}) + KeysOf(Names(ds[1..]))| <= MAX_ENTRIES
  {
    var all := b + KeysOf(Names(ds));
    var k := KeyOf(ds[0]);
    NamesStep(ds);
    assert (b + {k}) + KeysOf(Names(ds[1..])) == all;
    if k !in b {
      SubsetSize(b + {k}, all);
    }
  }

  lemma {:induction false} SubsetSize<T>(a: set<T>, b: set<T>)
    requires a <= b
    ensures |a| <= |b|
    decreases |a|
  {
    if a != {} {
      var x :| x in a;
      SubsetSize(a - {x}, b - {x});
    }
  }

  lemma {:induction false} RemoveAllMeaning(r: Progress, ds: seq<Name>)
    ensures RemoveAll(r, ds).blocklist == r.blocklist - KeysOf(Names(ds))
    decreases |ds|
  {
    if ds != [] {
      RemoveAllMeaning(RemoveOne(r, ds[0]), ds[1..]);
      NamesStep(ds);
    }
  }

  lemma {:induction false} RetainMeaning(list: seq<Name>, ds: seq<Name>)
    ensures Names(Retain(list, ds)) == Names(list) - Names(ds)
    decreases |list|
  {
    if list != [] {
      RetainMeaning(list[1..], ds);
      assert Names(list) == {list[0]} + Names(list[1..]);
      NamesConcat(if list[0] in ds then [] else [list[0]], Retain(list[1..], ds));
    }
  }

  /** For storable names, taking keys away is taking names away. */
  lemma KeysOfDifference(a: set<Name>, b: set<Name>)
    requires AllStorable(a) && AllStorable(b)
    ensures KeysOf(a) - KeysOf(b) == KeysOf(a - b)
  {
    forall k | k in KeysOf(a - b)
      ensures k !in KeysOf(b)
    {
      var d :| d in a - b && KeyOf(d) == k;
      LookupIsMembership(d, b);
    }
  }

  /** Removing the dynamic list leaves the defaults. */
  lemma Cleared(defaults: set<Name>, s: Shared)
    requires AllStorable(defaults) && Inv(defaults, s)
    ensures RemoveAll(Start(s.blocklist), s.dynamicBlocked).blocklist == KeysOf(defaults)
    ensures |KeysOf(defaults)| <= MAX_ENTRIES
  {
    var dyn := Names(s.dynamicBlocked);
    RemoveAllMeaning(Start(s.blocklist), s.dynamicBlocked);
    KeysOfDifference(defaults + dyn, dyn);
    assert (defaults + dyn) - dyn == defaults;
    SubsetSize(KeysOf(defaults), s.blocklist);
  }

  // ----- Application names

  function ExactNames(ns: seq<string>): set<string> {
    set n | n in ns && !IsPattern(n)
  }

  function PatternNames(ns: seq<string>): set<string> {
    set n | n in ns && IsPattern(n)
  }

  lemma {:induction false} InsertNamesMeaning(apps: Apps, ns: seq<string>)
    ensures var r := InsertNames(apps, ns);
            && r.paths == apps.paths
            && r.names == apps.names + ExactNames(ns)
            && r.patterns == apps.patterns + PatternNames(ns)
    decreases |ns|
  {
    if ns != [] {
      InsertNamesMeaning(InsertName(apps, ns[0]), ns[1..]);
      assert forall n :: n in ns <==> n == ns[0] || n in ns[1..];
    }
  }

  lemma {:induction false} RemoveNamesMeaning(apps: Apps, ns: seq<string>)
    ensures var r := RemoveNames(apps, ns);
            && r.paths == apps.paths
            && r.names == apps.names - ExactNames(ns)
            && r.patterns == apps.patterns - PatternNames(ns)
    decreases |ns|
  {
    if ns != [] {
      RemoveNamesMeaning(RemoveName(apps, ns[0]), ns[1..]);
      assert forall n :: n in ns <==> n == ns[0] || n in ns[1..];
    }
  }

  function Listed(entries: seq<string>): set<string> {
    set e | e in entries
  }

  lemma {:induction false} InsertPathsMeaning(apps: Apps, ps: seq<string>)
    ensures InsertPaths(apps, ps) == apps.(paths := apps.paths + Listed(ps))
    decreases |ps|
  {
    if ps == [] {
      assert apps.paths + Listed(ps) == apps.paths;
    } else {
      InsertPathsMeaning(apps.(paths := apps.paths + {ps[0]}), ps[1..]);
      assert Listed(ps) == {ps[0]} + Listed(ps[1..]);
      assert apps.paths + {ps[0]} + Listed(ps[1..]) == apps.paths + Listed(ps);
    }
  }

  lemma {:induction false} RemovePathsMeaning(apps: Apps, ps: seq<string>)
    ensures RemovePaths(apps, ps) == apps.(paths := apps.paths - Listed(ps))
    decreases |ps|
  {
    if ps == [] {
      assert apps.paths - Listed(ps) == apps.paths;
    } else {
      RemovePathsMeaning(apps.(paths := apps.paths - {ps[0]}), ps[1..]);
      assert Listed(ps) == {ps[0]} + Listed(ps[1..]);
      assert apps.paths - {ps[0]} - Listed(ps[1..]) == apps.paths - Listed(ps);
    }
  }

  lemma AppsStaySeparated(cmd: Cmd, s: Shared)
    requires Separated(s.apps)
    ensures Separated(Exec(cmd, s).0.apps)
  {
    match cmd
    case Sync(_, ns) => InsertNamesMeaning(s.apps.(names := {}, patterns := {}), ns);
    case BlockApp(ps, ns) =>
      InsertPathsMeaning(s.apps, ps);
      InsertNamesMeaning(InsertPaths(s.apps, ps), ns);
    case UnblockApp(ps, ns) =>
      RemovePathsMeaning(s.apps, ps);
      RemoveNamesMeaning(RemovePaths(s.apps, ps), ns);
    case BlockApps(ns) => InsertNamesMeaning(s.apps, ns);
    case UnblockApps(ns) => RemoveNamesMeaning(s.apps, ns);
    case _ =>
  }

  // ----- Every command

  lemma AddKeeps(defaults: set<Name>, blocklist: set<Key>, dyn: seq<Name>, ds: seq<Name>)
    requires AllStorable(defaults) && AllStorable(Names(ds)) && MapInv(defaults, blocklist, dyn)
    ensures var r := AddAll(Start(blocklist), ds);
            MapInv(defaults, r.blocklist, dyn + r.added) <==> Names(ds) !! defaults
  {
    var r := AddAll(Start(blocklist), ds);
    AddAllKeys(blocklist, ds);
    AddAllBounds(blocklist, ds);
    NamesConcat(dyn, r.added);
    KeysOfUnion(defaults + Names(dyn), Names(r.added));
    assert (defaults + Names(dyn)) + Names(r.added) == defaults + Names(dyn + r.added);
    if Names(ds) !! defaults {
      assert Names(dyn + r.added) !! defaults && AllStorable(Names(dyn + r.added));
    } else {
      var d :| d in Names(ds) && d in defaults;
      assert KeyOf(d) in KeysOf(defaults + Names(dyn));
      assert d in r.added && d in Names(dyn + r.added);
    }
  }

  lemma UnblockKeeps(defaults: set<Name>, blocklist: set<Key>, dyn: seq<Name>, ds: seq<Name>)
    requires AllStorable(defaults) && AllStorable(Names(ds)) && MapInv(defaults, blocklist, dyn)
    ensures MapInv(defaults, RemoveAll(Start(blocklist), ds).blocklist, Retain(dyn, ds)) <==> Names(ds) !! defaults
  {
    RemoveAllMeaning(Start(blocklist), ds);
    RetainMeaning(dyn, ds);
    KeysOfDifference(defaults + Names(dyn), Names(ds));
    SubsetSize(KeysOf((defaults + Names(dyn)) - Names(ds)), blocklist);
    if Names(ds) !! defaults {
      assert (defaults + Names(dyn)) - Names(ds) == defaults + (Names(dyn) - Names(ds));
    } else {
      var d :| d in Names(ds) && d in defaults;
      assert KeyOf(d) in KeysOf(Names(ds)) && KeyOf(d) in KeysOf(defaults + Names(Retain(dyn, ds)));
    }
  }

  /** After the dynamic list is cleared, the map and the list are as at the start. */
  lemma ClearedKeeps(defaults: set<Name>, s: Shared)
    requires AllStorable(defaults) && Inv(defaults, s)
    ensures MapInv(defaults, KeysOf(defaults), [])
  {
    Cleared(defaults, s);
    assert defaults + Names([]) == defaults;
  }

  lemma FocusOffKeeps(defaults: set<Name>, s: Shared, ignored: seq<Name>)
    requires AllStorable(defaults) && Inv(defaults, s)
    ensures Inv(defaults, Exec(FocusMode(false, ignored), s).0)
  {
    Cleared(defaults, s);
    ClearedKeeps(defaults, s);
  }

  lemma SyncKeeps(defaults: set<Name>, s: Shared, ds: seq<Name>, ns: seq<string>)
    requires AllStorable(defaults) && AllStorable(Names(ds)) && Inv(defaults, s)
    ensures Inv(defaults, Exec(Sync(ds, ns), s).0) <==> Names(ds) !! defaults
  {
    Cleared(defaults, s);
    ClearedKeeps(defaults, s);
    AddKeeps(defaults, KeysOf(defaults), [], ds);
    AppsStaySeparated(Sync(ds, ns), s);
    var r := AddAll(Start(KeysOf(defaults)), ds);
    assert [] + r.added == r.added;
  }

  /** From a state that satisfies the invariant, a command on storable names keeps it
      exactly when it names no default. */
  lemma CommandKeepsInvIff(defaults: set<Name>, cmd: Cmd, s: Shared)
    requires AllStorable(defaults) && AllStorable(Named(cmd)) && Inv(defaults, s)
    ensures Inv(defaults, Exec(cmd, s).0) <==> Named(cmd) !! defaults
  {
    match cmd
    case Block(ds) => AddKeeps(defaults, s.blocklist, s.dynamicBlocked, ds);
    case Unblock(ds) => UnblockKeeps(defaults, s.blocklist, s.dynamicBlocked, ds);
    case Sync(ds, ns) => SyncKeeps(defaults, s, ds, ns);
    case FocusMode(true, ds) => AddKeeps(defaults, s.blocklist, s.dynamicBlocked, ds);
    case FocusMode(false, ds) => FocusOffKeeps(defaults, s, ds);
    case _ => AppsStaySeparated(cmd, s);
  }

  /** The commands of a run that never name a default, on storable names. */
  ghost predicate Respectful(defaults: set<Name>, cmds: seq<Cmd>) {
    forall i :: 0 <= i < |cmds| ==> AllStorable(Named(cmds[i])) && Named(cmds[i]) !! defaults
  }

  /** Over every such run the map is the defaults and the dynamic list, even when
      insertions fail on a full map. */
  lemma {:induction false} RunKeepsInv(defaults: set<Name>, cmds: seq<Cmd>, s: Shared)
    requires AllStorable(defaults) && Respectful(defaults, cmds) && Inv(defaults, s)
    ensures Inv(defaults, ExecAll(cmds, s))
    decreases |cmds|
  {
    if cmds != [] {
      CommandKeepsInvIff(defaults, cmds[0], s);
      RunKeepsInv(defaults, cmds[1..], Exec(cmds[0], s).0);
    }
  }

  /** The state after the daemon has stored its default list in an empty map. */
  function Started(defaults: seq<Name>): Shared {
    Shared(AddAll(Start({}), defaults).blocklist, false, [], Apps({}, {}, {}))
  }

  lemma {:induction false} KeysOfSize(names: set<Name>)
    ensures |KeysOf(names)| <= |names|
    decreases |names|
  {
    if names != {} {
      var d :| d in names;
      KeysOfSize(names - {d});
      KeysOfUnion(names - {d}, {d});
      assert (names - {d}) + {d} == names && KeysOf({d}) == {KeyOf(d)};
      assert |KeysOf(names - {d}) + {KeyOf(d)}| <= |KeysOf(names - {d})| + 1;
    }
  }

  lemma {:induction false} NamesSize(list: seq<Name>)
    ensures |Names(list)| <= |list|
    decreases |list|
  {
    if list != [] {
      NamesSize(list[1..]);
      assert Names(list) == {list[0]} + Names(list[1..]);
    }
  }

  lemma NamesFit(list: seq<Name>)
    requires |list| <= MAX_ENTRIES
    ensures AddAll(Start({}), list).blocklist == KeysOf(Names(list)) && |KeysOf(Names(list))| <= MAX_ENTRIES
  {
    NamesSize(list);
    KeysOfSize(Names(list));
    AddAllKeys({}, list);
    assert {} + KeysOf(Names(list)) == KeysOf(Names(list));
    AddAllFits({}, list);
  }

  lemma StartedInv(defaults: seq<Name>)
    requires |defaults| <= MAX_ENTRIES
    ensures Inv(Names(defaults), Started(defaults))
  {
    NamesFit(defaults);
    assert Names(defaults) + Names([]) == Names(defaults);
  }

  /** In every run from the start that never names a default, the map is the defaults and
      the dynamic list after every command. */
  lemma MapInEveryRun(defaults: seq<Name>, cmds: seq<Cmd>)
    requires |defaults| <= MAX_ENTRIES && AllStorable(Names(defaults)) && Respectful(Names(defaults), cmds)
    ensures Inv(Names(defaults), ExecAll(cmds, Started(defaults)))
  {
    StartedInv(defaults);
    RunKeepsInv(Names(defaults), cmds, Started(defaults));
  }

  // ----- Consequences

  /** Turning focus mode off, or an empty Sync, restores exactly the defaults. */
  lemma DefaultsRestored(defaults: set<Name>, s: Shared, ignored: seq<Name>)
    requires AllStorable(defaults) && Inv(defaults, s)
    ensures var off := Exec(FocusMode(false, ignored), s).0;
            off.blocklist == KeysOf(defaults) && off.dynamicBlocked == [] && !off.focus
    ensures var synced := Exec(Sync([], []), s).0;
            synced.blocklist == KeysOf(defaults) && synced.dynamicBlocked == []
  {
    Cleared(defaults, s);
  }

  /** What Sync leaves in the map, the list, the names and the patterns, and its answer, do
      not depend on the history, whatever it is asked to store. */
  lemma SyncForgets(defaults: set<Name>, s1: Shared, s2: Shared, ds: seq<Name>, ns: seq<string>)
    requires AllStorable(defaults) && Inv(defaults, s1) && Inv(defaults, s2)
    ensures var (t1, a1) := Exec(Sync(ds, ns), s1);
            var (t2, a2) := Exec(Sync(ds, ns), s2);
            && a1 == a2 && t1.blocklist == t2.blocklist && t1.dynamicBlocked == t2.dynamicBlocked
            && t1.apps.names == t2.apps.names && t1.apps.patterns == t2.apps.patterns
  {
    Cleared(defaults, s1);
    Cleared(defaults, s2);
    InsertNamesMeaning(s1.apps.(names := {}, patterns := {}), ns);
    InsertNamesMeaning(s2.apps.(names := {}, patterns := {}), ns);
  }

  /** When the map can hold them all, Sync stores exactly the given domains. */
  lemma SyncStores(defaults: set<Name>, s: Shared, ds: seq<Name>, ns: seq<string>)
    requires AllStorable(defaults) && Inv(defaults, s)
    requires |KeysOf(defaults + Names(ds))| <= MAX_ENTRIES
    ensures var (t, answer) := Exec(Sync(ds, ns), s);
            && answer == Reply([])
            && t.blocklist == KeysOf(defaults + Names(ds)) && t.dynamicBlocked == ds
            && t.apps.names == ExactNames(ns) && t.apps.patterns == PatternNames(ns)
            && t.apps.paths == s.apps.paths && t.focus == s.focus
  {
    Cleared(defaults, s);
    KeysOfUnion(defaults, Names(ds));
    AddAllKeys(KeysOf(defaults), ds);
    AddAllFits(KeysOf(defaults), ds);
    InsertNamesMeaning(s.apps.(names := {}, patterns := {}), ns);
  }

  // ----- Concurrent handlers

  lemma {:induction false} OrderKeepsInv(defaults: set<Name>, cmds: seq<Cmd>, order: seq<nat>, s: Shared)
    requires AllStorable(defaults) && Respectful(defaults, cmds) && Inv(defaults, s)
    requires forall k :: 0 <= k < |order| ==> order[k] < |cmds|
    ensures Inv(defaults, ExecInOrder(cmds, order, s).0)
    decreases |order|
  {
    if order != [] {
      var before := order[..|order| - 1];
      OrderKeepsInv(defaults, cmds, before, s);
      CommandKeepsInvIff(defaults, cmds[order[|order| - 1]], ExecInOrder(cmds, before, s).0);
    }
  }

  /** Whatever the interleaving of concurrent handlers that never name a default, once all
      are finished the map is the defaults and the dynamic list. */
  lemma ConcurrentRunsKeepInv(defaults: set<Name>, cmds: seq<Cmd>, run: seq<Machine>, s: Shared)
    requires AllStorable(defaults) && Respectful(defaults, cmds) && Inv(defaults, s)
    requires IsRun(run) && run[0] == Init(Programs(cmds), s) && Finished(run[|run| - 1])
    ensures Inv(defaults, run[|run| - 1].shared)
  {
    var order := CommandsSerializable(cmds, run, s);
    OrderKeepsInv(defaults, cmds, order, s);
  }
}

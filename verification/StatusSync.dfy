/** Sending what Status reports back through Sync changes nothing, in every state that the
    daemon can reach. */
module StatusSync {
  import opened BlocklistKeys
  import opened ControlState
  import opened ControlPrograms
  import opened DomainRuns
  import opened LockMachine
  import opened SortedStrings

  /** The map holds the key of every dynamic domain, whatever else it holds. */
  ghost predicate Tracked(s: Shared) {
    && KeysOf(Names(s.dynamicBlocked)) <= s.blocklist
    && |s.blocklist| <= MAX_ENTRIES
    && AllStorable(Names(s.dynamicBlocked))
    && Separated(s.apps)
  }

  // ----- Every command on storable names keeps it, whether it names a default or not

  lemma AddKeepsTracked(s: Shared, ds: seq<Name>)
    requires Tracked(s) && AllStorable(Names(ds))
    ensures var r := AddAll(Start(s.blocklist), ds);
            Tracked(s.(blocklist := r.blocklist, dynamicBlocked := s.dynamicBlocked + r.added))
  {
    var r := AddAll(Start(s.blocklist), ds);
    AddAllKeys(s.blocklist, ds);
    AddAllBounds(s.blocklist, ds);
    NamesConcat(s.dynamicBlocked, r.added);
    KeysOfUnion(Names(s.dynamicBlocked), Names(r.added));
  }

  lemma UnblockKeepsTracked(s: Shared, ds: seq<Name>)
    requires Tracked(s) && AllStorable(Names(ds))
    ensures Tracked(Exec(Unblock(ds), s).0)
  {
    RemoveAllMeaning(Start(s.blocklist), ds);
    RetainMeaning(s.dynamicBlocked, ds);
    KeysOfDifference(Names(s.dynamicBlocked), Names(ds));
    SubsetSize(s.blocklist - KeysOf(Names(ds)), s.blocklist);
  }

  lemma ClearKeepsTracked(s: Shared)
    requires Tracked(s)
    ensures Tracked(s.(blocklist := RemoveAll(Start(s.blocklist), s.dynamicBlocked).blocklist, dynamicBlocked := []))
  {
    RemoveAllMeaning(Start(s.blocklist), s.dynamicBlocked);
    SubsetSize(s.blocklist - KeysOf(Names(s.dynamicBlocked)), s.blocklist);
  }

  lemma CommandKeepsTracked(cmd: Cmd, s: Shared)
    requires Tracked(s) && AllStorable(Named(cmd))
    ensures Tracked(Exec(cmd, s).0)
  {
    AppsStaySeparated(cmd, s);
    match cmd
    case Block(ds) => AddKeepsTracked(s, ds);
    case Unblock(ds) => UnblockKeepsTracked(s, ds);
    case Sync(ds, _) =>
      ClearKeepsTracked(s);
      var cleared := s.(blocklist := RemoveAll(Start(s.blocklist), s.dynamicBlocked).blocklist, dynamicBlocked := []);
      AddKeepsTracked(cleared, ds);
      var added := AddAll(Start(cleared.blocklist), ds).added;
      assert [] + added == added;
    case FocusMode(true, ds) => AddKeepsTracked(s, ds);
    case FocusMode(false, _) => ClearKeepsTracked(s);
    case _ =>
  }

  ghost predicate OnStorable(cmds: seq<Cmd>) {
    forall i :: 0 <= i < |cmds| ==> AllStorable(Named(cmds[i]))
  }

  lemma {:induction false} RunKeepsTracked(cmds: seq<Cmd>, s: Shared)
    requires Tracked(s) && OnStorable(cmds)
    ensures Tracked(ExecAll(cmds, s))
    decreases |cmds|
  {
    if cmds != [] {
      CommandKeepsTracked(cmds[0], s);
      RunKeepsTracked(cmds[1..], Exec(cmds[0], s).0);
    }
  }

  /** In every run from the start, whatever the defaults and whatever the commands on
      storable names do to them. */
  lemma TrackedInEveryRun(defaults: seq<Name>, cmds: seq<Cmd>)
    requires OnStorable(cmds)
    ensures Tracked(ExecAll(cmds, Started(defaults)))
  {
    AddAllBounds({}, defaults);
    RunKeepsTracked(cmds, Started(defaults));
  }

  lemma {:induction false} OrderKeepsTracked(cmds: seq<Cmd>, order: seq<nat>, s: Shared)
    requires Tracked(s) && OnStorable(cmds) && forall k :: 0 <= k < |order| ==> order[k] < |cmds|
    ensures Tracked(ExecInOrder(cmds, order, s).0)
    decreases |order|
  {
    if order != [] {
      var before := order[..|order| - 1];
      OrderKeepsTracked(cmds, before, s);
      CommandKeepsTracked(cmds[order[|order| - 1]], ExecInOrder(cmds, before, s).0);
    }
  }

  /** And at the end of every interleaving of such commands. */
  lemma ConcurrentRunsKeepTracked(cmds: seq<Cmd>, run: seq<Machine>, s: Shared)
    requires Tracked(s) && OnStorable(cmds)
    requires IsRun(run) && run[0] == Init(Programs(cmds), s) && Finished(run[|run| - 1])
    ensures Tracked(run[|run| - 1].shared)
  {
    var order := CommandsSerializable(cmds, run, s);
    OrderKeepsTracked(cmds, order, s);
  }

  // ----- The round trip

  /** Taking the dynamic list out and adding it again. */
  lemma AddedAgain(s: Shared, cleared: set<Key>)
    requires Tracked(s) && cleared == s.blocklist - KeysOf(Names(s.dynamicBlocked))
    ensures AddAll(Start(cleared), s.dynamicBlocked) == Progress(s.blocklist, s.dynamicBlocked, [])
  {
    assert cleared + KeysOf(Names(s.dynamicBlocked)) == s.blocklist;
    AddAllFits(cleared, s.dynamicBlocked);
    AddAllKeys(cleared, s.dynamicBlocked);
  }

  lemma InsertedAgain(apps: Apps, listing: seq<string>)
    requires Separated(apps) && forall n :: n in listing <==> n in apps.names || n in apps.patterns
    ensures InsertNames(apps.(names := {}, patterns := {}), listing) == apps
  {
    InsertNamesMeaning(apps.(names := {}, patterns := {}), listing);
    assert ExactNames(listing) == apps.names && PatternNames(listing) == apps.patterns;
  }

  /** Sending back the list and the names, each as often and in whatever order, changes nothing. */
  lemma SyncOfListing(s: Shared, listing: seq<string>)
    requires Tracked(s) && forall n :: n in listing <==> n in s.apps.names || n in s.apps.patterns
    ensures Exec(Sync(s.dynamicBlocked, listing), s) == (s, Reply([]))
  {
    RemoveAllMeaning(Start(s.blocklist), s.dynamicBlocked);
    AddedAgain(s, RemoveAll(Start(s.blocklist), s.dynamicBlocked).blocklist);
    InsertedAgain(s.apps, listing);
  }

  /** After any run of commands on storable names, with duplicates, a full map and lost
      defaults included, Sync of what Status reports changes nothing and reports no error. */
  lemma StatusSyncRoundTrip(defaults: seq<Name>, cmds: seq<Cmd>, payload: StatusPayload, frozen: set<string>)
    requires OnStorable(cmds) && Reports(payload, ExecAll(cmds, Started(defaults)), frozen)
    ensures var s := ExecAll(cmds, Started(defaults));
            Exec(Sync(payload.blockedDomains, payload.names), s) == (s, Reply([]))
  {
    var s := ExecAll(cmds, Started(defaults));
    TrackedInEveryRun(defaults, cmds);
    BothListed(s.apps.names, s.apps.patterns, payload.names);
    SyncOfListing(s, payload.names);
  }
}

/** When the default domains stay in the map: the exact condition for every command. */
module DefaultDomains {
  import opened BlocklistKeys
  import opened ControlState
  import opened DomainRuns

  ghost predicate HasDefaults(defaults: set<Name>, s: Shared) {
    KeysOf(defaults) <= s.blocklist
  }

  /** Removing keys from a map that holds the defaults leaves them exactly when none of the
      removed domains is a default. */
  lemma RemovedKeys(defaults: set<Name>, names: set<Name>, blocklist: set<Key>)
    requires AllStorable(defaults) && AllStorable(names) && KeysOf(defaults) <= blocklist
    ensures KeysOf(defaults) <= blocklist - KeysOf(names) <==> names !! defaults
  {
    if names !! defaults {
      forall k | k in KeysOf(defaults)
        ensures k !in KeysOf(names)
      {
        var d :| d in defaults && KeyOf(d) == k;
        LookupIsMembership(d, names);
      }
    } else {
      var d :| d in names && d in defaults;
      assert KeyOf(d) in KeysOf(defaults) && KeyOf(d) in KeysOf(names);
    }
  }

  /** The same when other keys are put back in. */
  lemma ReplacedKeys(defaults: set<Name>, removed: set<Name>, added: set<Name>, blocklist: set<Key>)
    requires AllStorable(defaults) && AllStorable(removed) && AllStorable(added) && KeysOf(defaults) <= blocklist
    ensures KeysOf(defaults) <= (blocklist - KeysOf(removed)) + KeysOf(added) <==> defaults * removed <= added
  {
    forall d | d in defaults
      ensures KeyOf(d) in (blocklist - KeysOf(removed)) + KeysOf(added) <==> d !in removed || d in added
    {
      assert KeyOf(d) in KeysOf(defaults);
      LookupIsMembership(d, removed);
      LookupIsMembership(d, added);
    }
    if KeysOf(defaults) <= (blocklist - KeysOf(removed)) + KeysOf(added) {
      forall d | d in defaults * removed
        ensures d in added
      {
        assert KeyOf(d) in KeysOf(defaults);
      }
    }
  }

  /** Unblock leaves the defaults exactly when it names none of them. */
  lemma DefaultsSurviveUnblockIff(defaults: set<Name>, s: Shared, ds: seq<Name>)
    requires AllStorable(defaults) && AllStorable(Names(ds)) && HasDefaults(defaults, s)
    ensures HasDefaults(defaults, Exec(Unblock(ds), s).0) <==> Names(ds) !! defaults
  {
    RemoveAllMeaning(Start(s.blocklist), ds);
    RemovedKeys(defaults, Names(ds), s.blocklist);
  }

  /** Leaving focus mode leaves them exactly when none of them has been blocked again. */
  lemma DefaultsSurviveFocusOffIff(defaults: set<Name>, s: Shared, ignored: seq<Name>)
    requires AllStorable(defaults) && AllStorable(Names(s.dynamicBlocked)) && HasDefaults(defaults, s)
    ensures HasDefaults(defaults, Exec(FocusMode(false, ignored), s).0) <==> Names(s.dynamicBlocked) !! defaults
  {
    RemoveAllMeaning(Start(s.blocklist), s.dynamicBlocked);
    RemovedKeys(defaults, Names(s.dynamicBlocked), s.blocklist);
  }

  /** Sync leaves them exactly when those among them that have been blocked again are among
      the domains it stores. */
  lemma DefaultsSurviveStoringIff(defaults: set<Name>, s: Shared, ds: seq<Name>, ns: seq<string>)
    requires AllStorable(defaults) && AllStorable(Names(s.dynamicBlocked)) && AllStorable(Names(ds))
    requires HasDefaults(defaults, s)
    ensures var t := Exec(Sync(ds, ns), s).0;
            HasDefaults(defaults, t) <==> defaults * Names(s.dynamicBlocked) <= Names(t.dynamicBlocked)
  {
    var cleared := RemoveAll(Start(s.blocklist), s.dynamicBlocked).blocklist;
    RemoveAllMeaning(Start(s.blocklist), s.dynamicBlocked);
    AddAllKeys(cleared, ds);
    ReplacedKeys(defaults, Names(s.dynamicBlocked), Names(AddAll(Start(cleared), ds).added), s.blocklist);
  }

  /** When the map has room for them, those are the domains it is given. */
  lemma DefaultsSurviveSyncIff(defaults: set<Name>, s: Shared, ds: seq<Name>, ns: seq<string>)
    requires AllStorable(defaults) && AllStorable(Names(s.dynamicBlocked)) && AllStorable(Names(ds))
    requires HasDefaults(defaults, s)
    requires |(s.blocklist - KeysOf(Names(s.dynamicBlocked))) + KeysOf(Names(ds))| <= MAX_ENTRIES
    ensures HasDefaults(defaults, Exec(Sync(ds, ns), s).0) <==> defaults * Names(s.dynamicBlocked) <= Names(ds)
  {
    DefaultsSurviveStoringIff(defaults, s, ds, ns);
    RemoveAllMeaning(Start(s.blocklist), s.dynamicBlocked);
    AddAllFits(s.blocklist - KeysOf(Names(s.dynamicBlocked)), ds);
  }

  /** No other command takes a default out. */
  lemma OtherCommandsKeepDefaults(defaults: set<Name>, cmd: Cmd, s: Shared)
    requires HasDefaults(defaults, s)
    requires !cmd.Unblock? && !cmd.Sync? && !(cmd.FocusMode? && !cmd.enabled)
    ensures HasDefaults(defaults, Exec(cmd, s).0)
  {
    match cmd
    case Block(ds) => AddAllKeys(s.blocklist, ds);
    case FocusMode(true, ds) => AddAllKeys(s.blocklist, ds);
    case _ =>
  }

  /** A default that is blocked again becomes dynamic, and is gone after focus mode ends or
      after a Sync that does not name it. */
  lemma BlockedDefaultIsLost(defaults: set<Name>, s: Shared, d: Name, ns: seq<string>)
    requires AllStorable(defaults) && AllStorable(Names(s.dynamicBlocked)) && HasDefaults(defaults, s) && d in defaults
    ensures var t := Exec(Block([d]), s).0;
            && HasDefaults(defaults, t)
            && !HasDefaults(defaults, Exec(FocusMode(false, []), t).0)
            && !HasDefaults(defaults, Exec(Sync([], ns), t).0)
  {
    var t := Exec(Block([d]), s).0;
    assert KeyOf(d) in KeysOf(defaults) && d in [d];
    AddAllBounds(s.blocklist, [d]);
    AddAllKeys(s.blocklist, [d]);
    assert d in t.dynamicBlocked && d in Names(t.dynamicBlocked);
    NamesConcat(s.dynamicBlocked, AddAll(Start(s.blocklist), [d]).added);
    assert AllStorable(Names(t.dynamicBlocked));
    DefaultsSurviveFocusOffIff(defaults, t, []);
    DefaultsSurviveStoringIff(defaults, t, [], ns);
    assert d in defaults * Names(t.dynamicBlocked);
  }
}

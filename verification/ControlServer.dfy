/** The command handlers as the daemon runs them: loops that update the blocklist map, the
    dynamic list, the focus flag and the application sets. */
module ControlServer {
  import opened ByteStrings
  import opened BlocklistKeys
  import opened ControlState
  import opened SortedStrings
  import Freezer

  /** The owner of the kernel map. */
  class EbpfManager {
    var blocklist: set<Key>

    constructor ()
      ensures blocklist == {}
    {
      blocklist := {};
    }

    /** Copy the domain to the front of a zeroed 256-byte array. */
    method BuildKey(domain: Name) returns (k: Key)
      ensures k == KeyOf(domain)
    {
      var name := new Byte[MAX_DNS_NAME_LEN](i => 0);
      var len := if |domain| < MAX_DNS_NAME_LEN then |domain| else MAX_DNS_NAME_LEN;
      for i := 0 to len
        invariant forall j :: 0 <= j < i ==> name[j] == domain[j]
        invariant forall j :: i <= j < MAX_DNS_NAME_LEN ==> name[j] == 0
      {
        name[i] := domain[i];
      }
      k := name[..];
    }

    method AddDomain(domain: Name) returns (error: Option<MapError>)
      modifies this
      ensures match InsertKey(old(blocklist), KeyOf(domain))
              case Some(b) => blocklist == b && error == None
              case None => blocklist == old(blocklist) && error == Some(MapFull)
    {
      var k := BuildKey(domain);
      if k !in blocklist && |blocklist| >= MAX_ENTRIES {
        return Some(MapFull);
      }
      blocklist := blocklist + {k};
      return None;
    }

    method RemoveDomain(domain: Name) returns (error: Option<MapError>)
      modifies this
      ensures match RemoveKey(old(blocklist), KeyOf(domain))
              case Some(b) => blocklist == b && error == None
              case None => blocklist == old(blocklist) && error == Some(KeyNotFound)
    {
      var k := BuildKey(domain);
      if k !in blocklist {
        return Some(KeyNotFound);
      }
      blocklist := blocklist - {k};
      return None;
    }
  }

  class Server {
    const ebpf: EbpfManager
    var dynamicBlocked: seq<Name>
    var focusMode: bool
    var paths: set<string>
    var names: set<string>
    var patterns: set<string>

    constructor (ebpf: EbpfManager)
      ensures this.ebpf == ebpf
      ensures State() == Shared(ebpf.blocklist, false, [], Apps({}, {}, {}))
    {
      this.ebpf := ebpf;
      dynamicBlocked := [];
      focusMode := false;
      paths, names, patterns := {}, {}, {};
    }

    ghost function State(): Shared
      reads this, ebpf
    {
      Shared(ebpf.blocklist, focusMode, dynamicBlocked, Apps(paths, names, patterns))
    }

    method Handle(cmd: Cmd) returns (resp: Resp)
      modifies this, ebpf
      ensures (State(), resp) == Exec(cmd, old(State()))
    {
      match cmd
      case Block(ds) => resp := HandleBlock(ds);
      case Unblock(ds) => resp := HandleUnblock(ds);
      case Sync(ds, ns) => resp := HandleSync(ds, ns);
      case FocusMode(enabled, ds) => resp := HandleFocusMode(enabled, ds);
      case BlockApp(ps, ns) => resp := HandleBlockApp(ps, ns);
      case UnblockApp(ps, ns) => resp := HandleUnblockApp(ps, ns);
      case BlockApps(ns) => resp := HandleBlockApp([], ns);
      case UnblockApps(ns) => resp := HandleUnblockApp([], ns);
    }

    method HandleStatus(freezer: Freezer.FreezerState) returns (payload: StatusPayload)
      ensures Reports(payload, State(), freezer.frozen.Keys)
    {
      var sortedPaths := SortStrings(paths);
      var sortedNames := SortBoth(names, patterns);
      var frozenApps := freezer.FrozenNames();
      payload := StatusPayload(focusMode, dynamicBlocked, dynamicBlocked, sortedPaths, sortedNames, frozenApps);
    }

    /** Try to store every domain; what was stored, and the errors. */
    method AddDomains(domains: seq<Name>) returns (added: seq<Name>, errs: seq<DomainError>)
      modifies ebpf
      ensures Progress(ebpf.blocklist, added, errs) == AddAll(Start(old(ebpf.blocklist)), domains)
    {
      added, errs := [], [];
      for i := 0 to |domains|
        invariant AddAll(Progress(ebpf.blocklist, added, errs), domains[i..]) ==
                  AddAll(Start(old(ebpf.blocklist)), domains)
      {
        var d := domains[i];
        assert domains[i..][0] == d && domains[i..][1..] == domains[i + 1..];
        var error := ebpf.AddDomain(d);
        if error.None? {
          added := added + [d];
        } else {
          errs := errs + [DomainError(d, error.value)];
        }
      }
    }

    method RemoveDomains(domains: seq<Name>) returns (errs: seq<DomainError>)
      modifies ebpf
      ensures Progress(ebpf.blocklist, [], errs) == RemoveAll(Start(old(ebpf.blocklist)), domains)
    {
      errs := [];
      for i := 0 to |domains|
        invariant RemoveAll(Progress(ebpf.blocklist, [], errs), domains[i..]) ==
                  RemoveAll(Start(old(ebpf.blocklist)), domains)
      {
        var d := domains[i];
        assert domains[i..][0] == d && domains[i..][1..] == domains[i + 1..];
        var error := ebpf.RemoveDomain(d);
        if error.Some? {
          errs := errs + [DomainError(d, error.value)];
        }
      }
    }

    method HandleBlock(domains: seq<Name>) returns (resp: Resp)
      modifies this, ebpf
      ensures (State(), resp) == Exec(Block(domains), old(State()))
    {
      var added, errs := AddDomains(domains);
      dynamicBlocked := dynamicBlocked + added;
      return Reply(errs);
    }

    method HandleUnblock(domains: seq<Name>) returns (resp: Resp)
      modifies this, ebpf
      ensures (State(), resp) == Exec(Unblock(domains), old(State()))
    {
      var errs := RemoveDomains(domains);
      RetainOthers(domains);
      return Reply(errs);
    }

    /** Keep, in their order, the listed domains that are not given. */
    method RetainOthers(domains: seq<Name>)
      modifies `dynamicBlocked
      ensures dynamicBlocked == Retain(old(dynamicBlocked), domains)
    {
      var list := dynamicBlocked;
      var kept: seq<Name> := [];
      for i := 0 to |list|
        invariant kept + Retain(list[i..], domains) == Retain(list, domains)
      {
        RetainStep(kept, list, i, domains);
        if list[i] !in domains {
          kept := kept + [list[i]];
        }
      }
      RetainDone(kept, list, domains);
      dynamicBlocked := kept;
    }

    method HandleSync(blockedDomains: seq<Name>, newAppNames: seq<string>) returns (resp: Resp)
      modifies this, ebpf
      ensures (State(), resp) == Exec(Sync(blockedDomains, newAppNames), old(State()))
    {
      var ignored := RemoveDomains(dynamicBlocked);
      var added, errs := AddDomains(blockedDomains);
      dynamicBlocked := added;
      names, patterns := {}, {};
      InsertAppNames(newAppNames);
      return Reply(errs);
    }

    method HandleFocusMode(enabled: bool, domains: seq<Name>) returns (resp: Resp)
      modifies this, ebpf
      ensures (State(), resp) == Exec(FocusMode(enabled, domains), old(State()))
    {
      if enabled {
        var added, ignored := AddDomains(domains);
        dynamicBlocked := dynamicBlocked + added;
        focusMode := true;
      } else {
        var ignored := RemoveDomains(dynamicBlocked);
        dynamicBlocked := [];
        focusMode := false;
      }
      return Reply([]);
    }

    method HandleBlockApp(newPaths: seq<string>, newNames: seq<string>) returns (resp: Resp)
      modifies this
      ensures resp == Reply([])
      ensures State() == old(State()).(apps := InsertNames(InsertPaths(old(State()).apps, newPaths), newNames))
    {
      for i := 0 to |newPaths|
        invariant unchanged(`dynamicBlocked) && unchanged(`focusMode)
        invariant InsertPaths(Apps(paths, names, patterns), newPaths[i..]) == InsertPaths(old(State()).apps, newPaths)
      {
        assert newPaths[i..][1..] == newPaths[i + 1..];
        paths := paths + {newPaths[i]};
      }
      InsertAppNames(newNames);
      return Reply([]);
    }

    method HandleUnblockApp(oldPaths: seq<string>, oldNames: seq<string>) returns (resp: Resp)
      modifies this
      ensures resp == Reply([])
      ensures State() == old(State()).(apps := RemoveNames(RemovePaths(old(State()).apps, oldPaths), oldNames))
    {
      for i := 0 to |oldPaths|
        invariant unchanged(`dynamicBlocked) && unchanged(`focusMode)
        invariant RemovePaths(Apps(paths, names, patterns), oldPaths[i..]) == RemovePaths(old(State()).apps, oldPaths)
      {
        assert oldPaths[i..][1..] == oldPaths[i + 1..];
        paths := paths - {oldPaths[i]};
      }
      ghost var mid := Apps(paths, names, patterns);
      for i := 0 to |oldNames|
        invariant unchanged(`dynamicBlocked) && unchanged(`focusMode)
        invariant RemoveNames(Apps(paths, names, patterns), oldNames[i..]) == RemoveNames(mid, oldNames)
      {
        var n := oldNames[i];
        assert oldNames[i..][0] == n && oldNames[i..][1..] == oldNames[i + 1..];
        if IsPattern(n) {
          patterns := patterns - {n};
        } else {
          names := names - {n};
        }
      }
      return Reply([]);
    }

    /** Names that end with '*' are patterns. */
    method InsertAppNames(newNames: seq<string>)
      modifies this
      ensures State() == old(State()).(apps := InsertNames(old(State()).apps, newNames))
    {
      for i := 0 to |newNames|
        invariant unchanged(`dynamicBlocked) && unchanged(`focusMode)
        invariant InsertNames(Apps(paths, names, patterns), newNames[i..]) == InsertNames(old(State()).apps, newNames)
      {
        var n := newNames[i];
        assert newNames[i..][0] == n && newNames[i..][1..] == newNames[i + 1..];
        if IsPattern(n) {
          patterns := patterns + {n};
        } else {
          names := names + {n};
        }
      }
    }
  }

  lemma RetainStep(kept: seq<Name>, list: seq<Name>, i: nat, ds: seq<Name>)
    requires i < |list|
    ensures kept + Retain(list[i..], ds) ==
            (if list[i] in ds then kept else kept + [list[i]]) + Retain(list[i + 1..], ds)
  {
    var rest := Retain(list[i + 1..], ds);
    assert list[i..][0] == list[i] && list[i..][1..] == list[i + 1..];
    assert kept + ([list[i]] + rest) == (kept + [list[i]]) + rest;
    assert [] + rest == rest;
  }

  lemma RetainDone(kept: seq<Name>, list: seq<Name>, ds: seq<Name>)
    ensures kept + Retain(list[|list|..], ds) == kept
  {
  }
}

/** The control server's commands, the state they share, and what each command does to it
    when it runs alone. */
module ControlState {
  import opened Sequences
  import opened SortedStrings
  import opened ByteStrings
  import opened BlocklistKeys

  /** A domain name as the bytes of its string. */
  type Name = Bytes

  datatype MapError = MapFull | KeyNotFound
  datatype DomainError = DomainError(domain: Name, reason: MapError)

  /** The blocked applications: exact paths, exact names, and prefix patterns. */
  datatype Apps = Apps(paths: set<string>, names: set<string>, patterns: set<string>)

  datatype Shared = Shared(blocklist: set<Key>, focus: bool, dynamicBlocked: seq<Name>, apps: Apps)

  datatype Cmd =
    | Block(domains: seq<Name>)
    | Unblock(domains: seq<Name>)
    | Sync(blockedDomains: seq<Name>, blockedApps: seq<string>)
    | FocusMode(enabled: bool, domains: seq<Name>)
    | BlockApp(paths: seq<string>, names: seq<string>)
    | UnblockApp(paths: seq<string>, names: seq<string>)
    | BlockApps(apps: seq<string>)
    | UnblockApps(apps: seq<string>)

  datatype Resp = Resp(ok: bool, errors: seq<DomainError>)

  function Reply(errors: seq<DomainError>): Resp {
    Resp(errors == [], errors)
  }

  /** What Status answers, without the uptime and the platform. */
  datatype StatusPayload = StatusPayload(focusMode: bool, dynamicBlocked: seq<Name>, blockedDomains: seq<Name>,
                                         paths: seq<string>, names: seq<string>, frozenApps: seq<string>)

  /** The payload shows the state: the list twice, the paths sorted, the names and the
      patterns sorted into one list, and the frozen names sorted. */
  ghost predicate Reports(p: StatusPayload, s: Shared, frozen: set<string>) {
    && p.focusMode == s.focus
    && p.dynamicBlocked == s.dynamicBlocked && p.blockedDomains == s.dynamicBlocked
    && SortsTo(s.apps.paths, p.paths)
    && SortsBoth(s.apps.names, s.apps.patterns, p.names)
    && SortsTo(frozen, p.frozenApps)
  }

  // ----- The blocklist map: at most 1024 keys, overwriting an existing key always works

  function InsertKey(blocklist: set<Key>, k: Key): Option<set<Key>> {
    if k in blocklist || |blocklist| < MAX_ENTRIES then Some(blocklist + {k}) else None
  }

  function RemoveKey(blocklist: set<Key>, k: Key): Option<set<Key>> {
    if k in blocklist then Some(blocklist - {k}) else None
  }

  // ----- Loops over domains, written from the front

  datatype Progress = Progress(blocklist: set<Key>, added: seq<Name>, errors: seq<DomainError>)

  function AddOne(r: Progress, d: Name): Progress {
    match InsertKey(r.blocklist, KeyOf(d))
    case Some(b) => Progress(b, r.added + [d], r.errors)
    case None => r.(errors := r.errors + [DomainError(d, MapFull)])
  }

  function AddAll(r: Progress, ds: seq<Name>): Progress
    decreases |ds|
  {
    if ds == [] then r else AddAll(AddOne(r, ds[0]), ds[1..])
  }

  function RemoveOne(r: Progress, d: Name): Progress {
    match RemoveKey(r.blocklist, KeyOf(d))
    case Some(b) => r.(blocklist := b)
    case None => r.(errors := r.errors + [DomainError(d, KeyNotFound)])
  }

  function RemoveAll(r: Progress, ds: seq<Name>): Progress
    decreases |ds|
  {
    if ds == [] then r else RemoveAll(RemoveOne(r, ds[0]), ds[1..])
  }

  function Start(blocklist: set<Key>): Progress {
    Progress(blocklist, [], [])
  }

  /** What AddAll appends does not depend on what was there. */
  lemma {:induction false} AddAllAppends(b: set<Key>, added: seq<Name>, errors: seq<DomainError>, ds: seq<Name>)
    ensures var r := AddAll(Start(b), ds);
            AddAll(Progress(b, added, errors), ds) == Progress(r.blocklist, added + r.added, errors + r.errors)
    decreases |ds|
  {
    if ds != [] {
      var one := AddOne(Start(b), ds[0]);
      var r := AddAll(Start(one.blocklist), ds[1..]);
      AddAllAppends(one.blocklist, one.added, one.errors, ds[1..]);
      var p := AddOne(Progress(b, added, errors), ds[0]);
      AddAllAppends(p.blocklist, p.added, p.errors, ds[1..]);
      ConcatAssoc(added, one.added, r.added);
      ConcatAssoc(errors, one.errors, r.errors);
    }
  }

  /** The list without the domains that ds names. */
  function Retain(list: seq<Name>, ds: seq<Name>): seq<Name> {
    if list == [] then []
    else (if list[0] in ds then [] else [list[0]]) + Retain(list[1..], ds)
  }

  // ----- Loops over application names: those that end with '*' are patterns

  predicate IsPattern(n: string) {
    n != [] && n[|n| - 1] == '*'
  }

  function InsertName(apps: Apps, n: string): Apps {
    if IsPattern(n) then apps.(patterns := apps.patterns + {n}) else apps.(names := apps.names + {n})
  }

  function RemoveName(apps: Apps, n: string): Apps {
    if IsPattern(n) then apps.(patterns := apps.patterns - {n}) else apps.(names := apps.names - {n})
  }

  function InsertNames(apps: Apps, ns: seq<string>): Apps
    decreases |ns|
  {
    if ns == [] then apps else InsertNames(InsertName(apps, ns[0]), ns[1..])
  }

  function RemoveNames(apps: Apps, ns: seq<string>): Apps
    decreases |ns|
  {
    if ns == [] then apps else RemoveNames(RemoveName(apps, ns[0]), ns[1..])
  }

  function InsertPaths(apps: Apps, ps: seq<string>): Apps
    decreases |ps|
  {
    if ps == [] then apps else InsertPaths(apps.(paths := apps.paths + {ps[0]}), ps[1..])
  }

  function RemovePaths(apps: Apps, ps: seq<string>): Apps
    decreases |ps|
  {
    if ps == [] then apps else RemovePaths(apps.(paths := apps.paths - {ps[0]}), ps[1..])
  }

  // ----- Commands

  function Exec(cmd: Cmd, s: Shared): (Shared, Resp) {
    match cmd
    case Block(ds) =>
      var r := AddAll(Start(s.blocklist), ds);
      (s.(blocklist := r.blocklist, dynamicBlocked := s.dynamicBlocked + r.added), Reply(r.errors))
    case Unblock(ds) =>
      var r := RemoveAll(Start(s.blocklist), ds);
      (s.(blocklist := r.blocklist, dynamicBlocked := Retain(s.dynamicBlocked, ds)), Reply(r.errors))
    case Sync(ds, ns) =>
      var cleared := RemoveAll(Start(s.blocklist), s.dynamicBlocked).blocklist;
      var r := AddAll(Start(cleared), ds);
      var apps := InsertNames(s.apps.(names := {}, patterns := {}), ns);
      (s.(blocklist := r.blocklist, dynamicBlocked := r.added, apps := apps), Reply(r.errors))
    case FocusMode(true, ds) =>
      var r := AddAll(Start(s.blocklist), ds);
      (s.(blocklist := r.blocklist, dynamicBlocked := s.dynamicBlocked + r.added, focus := true), Reply([]))
    case FocusMode(false, _) =>
      var cleared := RemoveAll(Start(s.blocklist), s.dynamicBlocked).blocklist;
      (s.(blocklist := cleared, dynamicBlocked := [], focus := false), Reply([]))
    case BlockApp(ps, ns) => (s.(apps := InsertNames(InsertPaths(s.apps, ps), ns)), Reply([]))
    case UnblockApp(ps, ns) => (s.(apps := RemoveNames(RemovePaths(s.apps, ps), ns)), Reply([]))
    case BlockApps(ns) => (s.(apps := InsertNames(s.apps, ns)), Reply([]))
    case UnblockApps(ns) => (s.(apps := RemoveNames(s.apps, ns)), Reply([]))
  }

  /** The state after the commands, one after the other. */
  function ExecAll(cmds: seq<Cmd>, s: Shared): Shared {
    if cmds == [] then s else ExecAll(cmds[1..], Exec(cmds[0], s).0)
  }
}

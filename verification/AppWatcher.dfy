/** The process watcher: its two loops resolve paths lazily, and select what resolving every
    path would select. */
module AppWatcher {
  import opened ByteStrings
  import opened ControlState
  import opened AppMatch

  datatype Process = Process(pid: int, comm: string, exePath: string)

  /** A process on the kill list, with the path it was judged by. */
  datatype Victim = Victim(pid: int, comm: string, exePath: string)

  // ----- The two ways to find a path

  /** The shared loop asks again when the short name is listed, or is the file name of a
      listed path; otherwise it keeps the path of the process list. */
  predicate AsksAgain(apps: Apps, comm: string) {
    comm in apps.names || exists path <- apps.paths :: FileName(path) == Some(comm)
  }

  function SharedPath(apps: Apps, p: Process, now: int -> string): string {
    if AsksAgain(apps, p.comm) then now(p.pid) else p.exePath
  }

  /** The owned loop asks when the short name is listed or any path is; otherwise it uses
      the empty path. */
  function OwnedPath(apps: Apps, p: Process, now: int -> string): string {
    if p.comm in apps.names || apps.paths != {} then now(p.pid) else ""
  }

  function EagerPath(apps: Apps, p: Process, now: int -> string): string {
    now(p.pid)
  }

  type Resolver = (Apps, Process, int -> string) -> string

  /** Neither this daemon nor the first process is ever selected. */
  predicate Spared(pid: int, self: int) {
    pid == self || pid <= 1
  }

  /** The kill list for a way to find paths. */
  function Victims(path: Resolver, apps: Apps, ps: seq<Process>, self: int, now: int -> string): seq<Victim> {
    if ps == [] then []
    else
      var p := ps[|ps| - 1];
      var before := Victims(path, apps, ps[..|ps| - 1], self, now);
      var exePath := path(apps, p, now);
      if Spared(p.pid, self) || !ProcessBlocked(apps, exePath, p.comm) then before
      else before + [Victim(p.pid, p.comm, exePath)]
  }

  // ----- The loops

  method AnyPathNamed(paths: set<string>, comm: string) returns (found: bool)
    ensures found <==> exists path <- paths :: FileName(path) == Some(comm)
  {
    var left := paths;
    while left != {}
      invariant left <= paths
      invariant forall path <- paths - left :: FileName(path) != Some(comm)
      decreases left
    {
      var path :| path in left;
      left := left - {path};
      if FileName(path) == Some(comm) {
        return true;
      }
    }
    found := false;
  }

  method RunShared(apps: Apps, ps: seq<Process>, self: int, now: int -> string) returns (toKill: seq<Victim>)
    ensures toKill == Victims(SharedPath, apps, ps, self, now)
  {
    toKill := [];
    for i := 0 to |ps|
      invariant toKill == Victims(SharedPath, apps, ps[..i], self, now)
    {
      var p := ps[i];
      assert ps[..i + 1][..i] == ps[..i] && ps[..i + 1][i] == p;
      if p.pid == self || p.pid <= 1 {
        continue;
      }
      var asks := p.comm in apps.names;
      if !asks {
        asks := AnyPathNamed(apps.paths, p.comm);
      }
      var exePath := if asks then now(p.pid) else p.exePath;
      var blocked := CheckProcess(apps, exePath, p.comm);
      if blocked {
        toKill := toKill + [Victim(p.pid, p.comm, exePath)];
      }
    }
    assert ps[..|ps|] == ps;
  }

  method CheckAndKill(apps: Apps, ps: seq<Process>, self: int, now: int -> string) returns (toKill: seq<Victim>)
    ensures toKill == Victims(OwnedPath, apps, ps, self, now)
  {
    toKill := [];
    for i := 0 to |ps|
      invariant toKill == Victims(OwnedPath, apps, ps[..i], self, now)
    {
      var p := ps[i];
      assert ps[..i + 1][..i] == ps[..i] && ps[..i + 1][i] == p;
      if p.pid == self || p.pid <= 1 {
        continue;
      }
      var exePath := if p.comm in apps.names || apps.paths != {} then now(p.pid) else "";
      var blocked := CheckProcess(apps, exePath, p.comm);
      if blocked {
        toKill := toKill + [Victim(p.pid, p.comm, exePath)];
      }
    }
    assert ps[..|ps|] == ps;
  }

  // ----- Lazy equals eager

  /** As the process list is made: the short name is the file name of the path. */
  predicate Listed(p: Process) {
    p.comm == CommOf(p.exePath)
  }

  ghost predicate Stable(ps: seq<Process>, now: int -> string) {
    forall i :: 0 <= i < |ps| ==> now(ps[i].pid) == ps[i].exePath
  }

  function Pids(vs: seq<Victim>): seq<int> {
    seq(|vs|, i requires 0 <= i < |vs| => vs[i].pid)
  }

  /** Without listed paths only the short name decides. */
  lemma OnlyCommDecides(apps: Apps, exePath: string)
    requires apps.paths == {}
    ensures ProcessBlocked(apps, exePath, CommOf(exePath)) == ProcessBlocked(apps, "", CommOf(exePath))
  {
    assert FileName("") == None by {
      assert Components("") == [];
    }
  }

  /** Two ways to find paths that lead to the same verdicts select the same pids. */
  lemma {:induction false} SameVerdicts(path1: Resolver, path2: Resolver, apps: Apps, ps: seq<Process>, self: int,
                                        now: int -> string)
    requires forall i :: 0 <= i < |ps| ==>
      ProcessBlocked(apps, path1(apps, ps[i], now), ps[i].comm) == ProcessBlocked(apps, path2(apps, ps[i], now), ps[i].comm)
    ensures Pids(Victims(path1, apps, ps, self, now)) == Pids(Victims(path2, apps, ps, self, now))
    decreases |ps|
  {
    if ps != [] {
      var init, p := ps[..|ps| - 1], ps[|ps| - 1];
      assert forall i :: 0 <= i < |init| ==> init[i] == ps[i];
      SameVerdicts(path1, path2, apps, init, self, now);
      PidsOfMore(Victims(path1, apps, init, self, now), Victim(p.pid, p.comm, path1(apps, p, now)));
      PidsOfMore(Victims(path2, apps, init, self, now), Victim(p.pid, p.comm, path2(apps, p, now)));
    }
  }

  /** The owned loop selects the pids that always asking would select. */
  lemma OwnedIsEager(apps: Apps, ps: seq<Process>, self: int, now: int -> string)
    requires Stable(ps, now) && forall i :: 0 <= i < |ps| ==> Listed(ps[i])
    ensures Pids(Victims(OwnedPath, apps, ps, self, now)) == Pids(Victims(EagerPath, apps, ps, self, now))
  {
    forall i | 0 <= i < |ps|
      ensures ProcessBlocked(apps, OwnedPath(apps, ps[i], now), ps[i].comm) ==
              ProcessBlocked(apps, EagerPath(apps, ps[i], now), ps[i].comm)
    {
      if apps.paths == {} {
        OnlyCommDecides(apps, ps[i].exePath);
      }
    }
    SameVerdicts(OwnedPath, EagerPath, apps, ps, self, now);
  }

  /** Where the shared loop keeps a listed path, its file name tells nothing that the short
      name does not. */
  lemma KeptPathDecides(apps: Apps, p: Process)
    requires Listed(p) && !AsksAgain(apps, p.comm)
    ensures ProcessBlocked(apps, p.exePath, p.comm) <==> p.exePath in apps.paths || NameBlocked(apps, p.comm)
    ensures FileName(p.exePath).Some? ==> p.exePath !in apps.paths
  {
    assert FileName("") == None by {
      assert Components("") == [];
    }
    if FileName(p.exePath).Some? {
      assert FileName(p.exePath) == Some(p.comm);
    }
  }

  /** Whatever a process has turned into since it was listed: the shared loop selects it exactly
      when always asking would, if and only if its short name makes the loop ask or is itself
      blocked, or its new path is blocked exactly when its listed path was a blocked path,
      which no path with a file name is. */
  lemma {:induction false} SharedIsEagerIff(apps: Apps, p: Process, self: int, now: int -> string)
    requires Listed(p) && !Spared(p.pid, self)
    ensures Pids(Victims(SharedPath, apps, [p], self, now)) == Pids(Victims(EagerPath, apps, [p], self, now)) <==>
            || AsksAgain(apps, p.comm) || NameBlocked(apps, p.comm)
            || (ProcessBlocked(apps, now(p.pid), p.comm) <==> p.exePath in apps.paths && FileName(p.exePath).None?)
  {
    assert [p][..0] == [];
    assert Victims(SharedPath, apps, [], self, now) == [] && Victims(EagerPath, apps, [], self, now) == [];
    if !AsksAgain(apps, p.comm) {
      KeptPathDecides(apps, p);
    }
  }

  /** With stable paths the two loops and always asking select the same pids, and the shared
      loop keeps the same paths as well. */
  lemma {:induction false} LazyIsEager(apps: Apps, ps: seq<Process>, self: int, now: int -> string)
    requires Stable(ps, now) && forall i :: 0 <= i < |ps| ==> Listed(ps[i])
    ensures Victims(SharedPath, apps, ps, self, now) == Victims(EagerPath, apps, ps, self, now)
    ensures Pids(Victims(OwnedPath, apps, ps, self, now)) == Pids(Victims(SharedPath, apps, ps, self, now))
    decreases |ps|
  {
    OwnedIsEager(apps, ps, self, now);
    SharedKeepsPaths(apps, ps, self, now);
  }

  lemma {:induction false} SharedKeepsPaths(apps: Apps, ps: seq<Process>, self: int, now: int -> string)
    requires Stable(ps, now)
    ensures Victims(SharedPath, apps, ps, self, now) == Victims(EagerPath, apps, ps, self, now)
    decreases |ps|
  {
    if ps != [] {
      SharedKeepsPaths(apps, ps[..|ps| - 1], self, now);
    }
  }

  /** On a stable list the kill list holds a process exactly when the rule for executed
      programs blocks its path, or the path has no file name and the empty name is blocked;
      and never the daemon or the first process. */
  lemma {:induction false} KilledIffBlocked(apps: Apps, ps: seq<Process>, self: int, now: int -> string, i: nat)
    requires Stable(ps, now) && forall j :: 0 <= j < |ps| ==> Listed(ps[j])
    requires i < |ps|
    ensures ps[i].pid in Pids(Victims(OwnedPath, apps, ps, self, now)) <==>
            && ps[i].pid > 1 && ps[i].pid != self
            && (|| Blocked(apps, ps[i].exePath)
                || (FileName(ps[i].exePath).None? && ("" in apps.names || "*" in apps.patterns)))
  {
    LazyIsEager(apps, ps, self, now);
    EagerKills(apps, ps, self, now, ps[i].pid);
    RulesAgreeIff(apps, ps[i].exePath);
    EmptyNameBlockedIff(apps);
  }

  /** However paths are found and whatever is blocked: neither the daemon nor a pid of 1 or below is
      ever on the kill list, and only pids of the list are. */
  lemma {:induction false} NeverKilled(path: Resolver, apps: Apps, ps: seq<Process>, self: int, now: int -> string, k: nat)
    requires k < |Victims(path, apps, ps, self, now)|
    ensures var pid := Victims(path, apps, ps, self, now)[k].pid;
            pid > 1 && pid != self && Runs(ps, pid)
    decreases |ps|
  {
    var init := ps[..|ps| - 1];
    var before := Victims(path, apps, init, self, now);
    if k < |before| {
      NeverKilled(path, apps, init, self, now, k);
      RunsMore(ps, before[k].pid);
    } else {
      RunsMore(ps, ps[|ps| - 1].pid);
    }
  }

  ghost predicate Runs(ps: seq<Process>, pid: int) {
    exists j :: 0 <= j < |ps| && ps[j].pid == pid
  }

  lemma {:induction false} RunsMore(ps: seq<Process>, pid: int)
    requires ps != []
    ensures Runs(ps, pid) <==> ps[|ps| - 1].pid == pid || Runs(ps[..|ps| - 1], pid)
  {
    var init := ps[..|ps| - 1];
    if Runs(init, pid) {
      var j :| 0 <= j < |init| && init[j].pid == pid;
      assert ps[j].pid == pid;
    }
    if Runs(ps, pid) {
      var j :| 0 <= j < |ps| && ps[j].pid == pid;
      assert j < |ps| - 1 ==> init[j].pid == pid;
    }
  }

  lemma {:induction false} PidsStep(path: Resolver, apps: Apps, ps: seq<Process>, self: int, now: int -> string)
    requires ps != []
    ensures var p := ps[|ps| - 1];
            Pids(Victims(path, apps, ps, self, now)) ==
            Pids(Victims(path, apps, ps[..|ps| - 1], self, now)) +
            (if Spared(p.pid, self) || !ProcessBlocked(apps, path(apps, p, now), p.comm) then [] else [p.pid])
  {
    var p := ps[|ps| - 1];
    PidsOfMore(Victims(path, apps, ps[..|ps| - 1], self, now), Victim(p.pid, p.comm, path(apps, p, now)));
  }

  lemma {:induction false} EagerKills(apps: Apps, ps: seq<Process>, self: int, now: int -> string, pid: int)
    requires Stable(ps, now) && forall j :: 0 <= j < |ps| ==> Listed(ps[j])
    ensures pid in Pids(Victims(EagerPath, apps, ps, self, now)) <==>
            !Spared(pid, self) && ProcessBlocked(apps, now(pid), CommOf(now(pid))) && Runs(ps, pid)
    decreases |ps|
  {
    if ps != [] {
      EagerKills(apps, ps[..|ps| - 1], self, now, pid);
      PidsStep(EagerPath, apps, ps, self, now);
      RunsMore(ps, pid);
    }
  }

  lemma PidsOfMore(vs: seq<Victim>, v: Victim)
    ensures Pids(vs + [v]) == Pids(vs) + [v.pid]
  {
  }
}

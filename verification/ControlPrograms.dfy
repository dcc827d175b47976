/** The handlers as programs with the lock scopes of the source, and what follows for
    concurrent connections. */
module ControlPrograms {
  import opened ControlState
  import opened LockMachine
  import opened Serializability

  // ----- Loops of one action per element, then the rest of the handler

  function Adds(ds: seq<Name>, next: Prog): Prog {
    if ds == [] then next else Act(Add(ds[0]), Adds(ds[1..], next))
  }

  function Removes(ds: seq<Name>, next: Prog): Prog {
    if ds == [] then next else Act(Remove(ds[0]), Removes(ds[1..], next))
  }

  function AddPushes(ds: seq<Name>, report: bool, next: Prog): Prog {
    if ds == [] then next else Act(AddPush(ds[0], report), AddPushes(ds[1..], report, next))
  }

  function PutNames(ns: seq<string>, next: Prog): Prog {
    if ns == [] then next else Act(PutName(ns[0]), PutNames(ns[1..], next))
  }

  function DropNames(ns: seq<string>, next: Prog): Prog {
    if ns == [] then next else Act(DropName(ns[0]), DropNames(ns[1..], next))
  }

  function PutPaths(ps: seq<string>, next: Prog): Prog {
    if ps == [] then next else Act(PutPath(ps[0]), PutPaths(ps[1..], next))
  }

  function DropPaths(ps: seq<string>, next: Prog): Prog {
    if ps == [] then next else Act(DropPath(ps[0]), DropPaths(ps[1..], next))
  }

  // ----- The handlers; guards are dropped in the reverse order of their declaration

  const END_MAP := Rel(MapLock, Done)
  const END_DYN_MAP := Rel(DynLock, END_MAP)
  const END_DYN_FOCUS_MAP := Rel(DynLock, Rel(FocusLock, END_MAP))
  const END_APPS := Rel(AppsLock, Done)

  function Program(cmd: Cmd): Prog {
    match cmd
    case Block(ds) => Acq(MapLock, Adds(ds, Acq(DynLock, Act(Extend, END_DYN_MAP))))
    case Unblock(ds) => Acq(MapLock, Removes(ds, Acq(DynLock, Act(Retained(ds), END_DYN_MAP))))
    case Sync(ds, ns) =>
      Acq(MapLock, Acq(DynLock, Act(ClearDomains, AddPushes(ds, true, Acq(AppsLock, Act(ClearNames,
      PutNames(ns, Rel(DynLock, Rel(AppsLock, END_MAP)))))))))
    case FocusMode(true, ds) =>
      Acq(MapLock, Acq(FocusLock, Acq(DynLock, AddPushes(ds, false, Act(SetFocus(true), END_DYN_FOCUS_MAP)))))
    case FocusMode(false, _) =>
      Acq(MapLock, Acq(FocusLock, Acq(DynLock, Act(ClearDomains, Act(SetFocus(false), END_DYN_FOCUS_MAP)))))
    case BlockApp(ps, ns) => Acq(AppsLock, PutPaths(ps, PutNames(ns, END_APPS)))
    case UnblockApp(ps, ns) => Acq(AppsLock, DropPaths(ps, DropNames(ns, END_APPS)))
    case BlockApps(ns) => Acq(AppsLock, PutNames(ns, END_APPS))
    case UnblockApps(ns) => Acq(AppsLock, DropNames(ns, END_APPS))
  }

  /** Status reads the list, then the flag, then the applications while it takes the freezer. */
  const STATUS_PROGRAM :=
    Acq(DynLock, Act(ReadDyn, Rel(DynLock, Acq(FocusLock, Act(ReadFocus, Rel(FocusLock,
    Acq(AppsLock, Act(ReadApps, Acq(FreezerLock, Act(Work, Rel(FreezerLock, END_APPS)))))))))))

  /** For each of n names: look it up in the freezer, and unless it is frozen or matches no
      process, signal and record it. */
  function FreezeProgram(n: nat): Prog {
    if n == 0 then Done
    else
      var next := FreezeProgram(n - 1);
      Acq(FreezerLock, Act(Work, Rel(FreezerLock,
      Fork(next, Act(Work, Fork(next, Act(Work, Acq(FreezerLock, Act(Work, Rel(FreezerLock, next)))))))))) 
  }

  /** For each of n names: take it out of the freezer, then signal. */
  function ThawProgram(n: nat): Prog {
    if n == 0 then Done
    else Acq(FreezerLock, Act(Work, Rel(FreezerLock, Act(Work, ThawProgram(n - 1)))))
  }

  /** n rounds of the exec-event thread, which consults the blocked set. */
  function WatchProgram(n: nat): Prog {
    if n == 0 then Done else Acq(AppsLock, Act(ReadApps, Rel(AppsLock, Act(Work, WatchProgram(n - 1)))))
  }

  /** n rounds of the loop that attaches the classifier to new TUN interfaces. */
  function TunProgram(n: nat): Prog {
    if n == 0 then Done else Acq(MapLock, Act(Work, Rel(MapLock, TunProgram(n - 1))))
  }

  // ----- Every command that changes the state is two-phase

  lemma {:induction false} AddsTwoPhase(ds: seq<Name>, next: Prog, held: set<Lock>)
    requires MapLock in held
    ensures TwoPhase(next, held) ==> TwoPhase(Adds(ds, next), held)
    decreases |ds|
  {
    if ds != [] {
      AddsTwoPhase(ds[1..], next, held);
    }
  }

  lemma {:induction false} RemovesTwoPhase(ds: seq<Name>, next: Prog, held: set<Lock>)
    requires MapLock in held
    ensures TwoPhase(next, held) ==> TwoPhase(Removes(ds, next), held)
    decreases |ds|
  {
    if ds != [] {
      RemovesTwoPhase(ds[1..], next, held);
    }
  }

  lemma {:induction false} AddPushesTwoPhase(ds: seq<Name>, report: bool, next: Prog, held: set<Lock>)
    requires MapLock in held && DynLock in held
    ensures TwoPhase(next, held) ==> TwoPhase(AddPushes(ds, report, next), held)
    decreases |ds|
  {
    if ds != [] {
      AddPushesTwoPhase(ds[1..], report, next, held);
    }
  }

  lemma {:induction false} NamesTwoPhase(ns: seq<string>, next: Prog, held: set<Lock>)
    requires AppsLock in held && TwoPhase(next, held)
    ensures TwoPhase(PutNames(ns, next), held) && TwoPhase(DropNames(ns, next), held)
    decreases |ns|
  {
    if ns != [] {
      NamesTwoPhase(ns[1..], next, held);
    }
  }

  lemma {:induction false} PathsTwoPhase(ps: seq<string>, next: Prog, held: set<Lock>)
    requires AppsLock in held
    ensures TwoPhase(next, held) ==> TwoPhase(PutPaths(ps, next), held) && TwoPhase(DropPaths(ps, next), held)
    decreases |ps|
  {
    if ps != [] {
      PathsTwoPhase(ps[1..], next, held);
    }
  }

  lemma EndsTwoPhase()
    ensures TwoPhase(END_DYN_MAP, {MapLock, DynLock})
    ensures TwoPhase(END_DYN_FOCUS_MAP, {MapLock, FocusLock, DynLock})
    ensures TwoPhase(END_APPS, {AppsLock})
    ensures TwoPhase(Rel(DynLock, Rel(AppsLock, END_MAP)), {MapLock, DynLock, AppsLock})
  {
    assert {MapLock} - {MapLock} == {} && {AppsLock} - {AppsLock} == {};
    assert {MapLock, DynLock} - {DynLock} == {MapLock};
    assert {MapLock, FocusLock, DynLock} - {DynLock} == {MapLock, FocusLock};
    assert {MapLock, FocusLock} - {FocusLock} == {MapLock};
    assert {MapLock, DynLock, AppsLock} - {DynLock} == {MapLock, AppsLock};
    assert {MapLock, AppsLock} - {AppsLock} == {MapLock};
  }

  lemma FocusTwoPhase(body: Prog)
    requires TwoPhase(body, {MapLock, FocusLock, DynLock})
    ensures TwoPhase(Acq(MapLock, Acq(FocusLock, Acq(DynLock, body))), {})
  {
    assert {} + {MapLock} == {MapLock};
    assert {MapLock} + {FocusLock} == {MapLock, FocusLock};
    assert {MapLock, FocusLock} + {DynLock} == {MapLock, FocusLock, DynLock};
    assert TwoPhase(Acq(DynLock, body), {MapLock, FocusLock});
    assert TwoPhase(Acq(FocusLock, Acq(DynLock, body)), {MapLock});
  }

  /** No command that changes the state acquires a lock after releasing one. */
  lemma ProgramTwoPhase(cmd: Cmd)
    ensures TwoPhase(Program(cmd), {}) && HasAcquire(Program(cmd))
  {
    EndsTwoPhase();
    assert {} + {MapLock} == {MapLock} && {} + {AppsLock} == {AppsLock};
    assert {MapLock} + {DynLock} == {MapLock, DynLock};
    assert {MapLock, DynLock} + {AppsLock} == {MapLock, DynLock, AppsLock};
    match cmd
    case Block(ds) =>
      assert TwoPhase(Act(Extend, END_DYN_MAP), {MapLock, DynLock});
      AddsTwoPhase(ds, Acq(DynLock, Act(Extend, END_DYN_MAP)), {MapLock});
    case Unblock(ds) =>
      assert TwoPhase(Act(Retained(ds), END_DYN_MAP), {MapLock, DynLock});
      RemovesTwoPhase(ds, Acq(DynLock, Act(Retained(ds), END_DYN_MAP)), {MapLock});
    case Sync(ds, ns) =>
      var end := Rel(DynLock, Rel(AppsLock, END_MAP));
      NamesTwoPhase(ns, end, {MapLock, DynLock, AppsLock});
      var apps := Acq(AppsLock, Act(ClearNames, PutNames(ns, end)));
      assert TwoPhase(Act(ClearNames, PutNames(ns, end)), {MapLock, DynLock, AppsLock});
      AddPushesTwoPhase(ds, true, apps, {MapLock, DynLock});
      var body := Act(ClearDomains, AddPushes(ds, true, apps));
      assert TwoPhase(body, {MapLock, DynLock}) && TwoPhase(Acq(DynLock, body), {MapLock});
    case FocusMode(true, ds) =>
      var end := Act(SetFocus(true), END_DYN_FOCUS_MAP);
      assert TwoPhase(end, {MapLock, FocusLock, DynLock});
      AddPushesTwoPhase(ds, false, end, {MapLock, FocusLock, DynLock});
      FocusTwoPhase(AddPushes(ds, false, end));
    case FocusMode(false, _) =>
      var end := Act(SetFocus(false), END_DYN_FOCUS_MAP);
      assert TwoPhase(end, {MapLock, FocusLock, DynLock});
      FocusTwoPhase(Act(ClearDomains, end));
    case BlockApp(ps, ns) =>
      NamesTwoPhase(ns, END_APPS, {AppsLock});
      PathsTwoPhase(ps, PutNames(ns, END_APPS), {AppsLock});
    case UnblockApp(ps, ns) =>
      NamesTwoPhase(ns, END_APPS, {AppsLock});
      PathsTwoPhase(ps, DropNames(ns, END_APPS), {AppsLock});
    case BlockApps(ns) => NamesTwoPhase(ns, END_APPS, {AppsLock});
    case UnblockApps(ns) => NamesTwoPhase(ns, END_APPS, {AppsLock});
  }

  // ----- Run alone, a program does what its command says

  lemma {:induction false} RunAdds(ds: seq<Name>, next: Prog, loc: Local, s: Shared)
    ensures var r := AddAll(Progress(s.blocklist, loc.added, loc.errors), ds);
            Run(Adds(ds, next), loc, s) ==
            Run(next, loc.(added := r.added, errors := r.errors), s.(blocklist := r.blocklist))
    decreases |ds|
  {
    if ds != [] {
      var (loc', s') := Do(Add(ds[0]), loc, s);
      RunAdds(ds[1..], next, loc', s');
    }
  }

  lemma {:induction false} RunRemoves(ds: seq<Name>, next: Prog, loc: Local, s: Shared)
    ensures var r := RemoveAll(Progress(s.blocklist, loc.added, loc.errors), ds);
            Run(Removes(ds, next), loc, s) == Run(next, loc.(errors := r.errors), s.(blocklist := r.blocklist))
    decreases |ds|
  {
    if ds != [] {
      var (loc', s') := Do(Remove(ds[0]), loc, s);
      RunRemoves(ds[1..], next, loc', s');
    }
  }

  lemma {:induction false} RunAddPushes(ds: seq<Name>, report: bool, next: Prog, loc: Local, s: Shared, errors: seq<DomainError>)
    requires report ==> errors == loc.errors
    ensures var r := AddAll(Progress(s.blocklist, s.dynamicBlocked, errors), ds);
            Run(AddPushes(ds, report, next), loc, s) ==
            Run(next, if report then loc.(errors := r.errors) else loc,
                s.(blocklist := r.blocklist, dynamicBlocked := r.added))
    decreases |ds|
  {
    if ds != [] {
      var (loc', s') := Do(AddPush(ds[0], report), loc, s);
      var r := AddOne(Progress(s.blocklist, s.dynamicBlocked, errors), ds[0]);
      assert s' == s.(blocklist := r.blocklist, dynamicBlocked := r.added);
      RunAddPushes(ds[1..], report, next, loc', s', r.errors);
    }
  }

  lemma {:induction false} RunPutNames(ns: seq<string>, next: Prog, loc: Local, s: Shared)
    ensures Run(PutNames(ns, next), loc, s) == Run(next, loc, s.(apps := InsertNames(s.apps, ns)))
    decreases |ns|
  {
    if ns != [] {
      RunPutNames(ns[1..], next, loc, s.(apps := InsertName(s.apps, ns[0])));
    }
  }

  lemma {:induction false} RunDropNames(ns: seq<string>, next: Prog, loc: Local, s: Shared)
    ensures Run(DropNames(ns, next), loc, s) == Run(next, loc, s.(apps := RemoveNames(s.apps, ns)))
    decreases |ns|
  {
    if ns != [] {
      RunDropNames(ns[1..], next, loc, s.(apps := RemoveName(s.apps, ns[0])));
    }
  }

  lemma {:induction false} RunPutPaths(ps: seq<string>, next: Prog, loc: Local, s: Shared)
    ensures Run(PutPaths(ps, next), loc, s) == Run(next, loc, s.(apps := InsertPaths(s.apps, ps)))
    decreases |ps|
  {
    if ps != [] {
      RunPutPaths(ps[1..], next, loc, s.(apps := s.apps.(paths := s.apps.paths + {ps[0]})));
    }
  }

  lemma {:induction false} RunDropPaths(ps: seq<string>, next: Prog, loc: Local, s: Shared)
    ensures Run(DropPaths(ps, next), loc, s) == Run(next, loc, s.(apps := RemovePaths(s.apps, ps)))
    decreases |ps|
  {
    if ps != [] {
      RunDropPaths(ps[1..], next, loc, s.(apps := s.apps.(paths := s.apps.paths - {ps[0]})));
    }
  }

  lemma RunEnds(loc: Local, s: Shared)
    ensures Run(END_MAP, loc, s) == (loc, s) && Run(END_APPS, loc, s) == (loc, s)
    ensures Run(END_DYN_MAP, loc, s) == (loc, s) && Run(END_DYN_FOCUS_MAP, loc, s) == (loc, s)
    ensures Run(Rel(DynLock, Rel(AppsLock, END_MAP)), loc, s) == (loc, s)
  {
    assert Run(Done, loc, s) == (loc, s);
    assert Run(END_MAP, loc, s) == (loc, s);
    assert Run(Rel(FocusLock, END_MAP), loc, s) == (loc, s);
    assert Run(Rel(AppsLock, END_MAP), loc, s) == (loc, s);
  }

  /** The program of a command, run alone, has the command's effect and gives its answer. */
  ghost predicate Means(cmd: Cmd, s: Shared) {
    var (loc, s') := Run(Program(cmd), FRESH, s);
    (s', Reply(loc.errors)) == Exec(cmd, s)
  }

  lemma BlockMeans(ds: seq<Name>, s: Shared)
    ensures Means(Block(ds), s)
  {
    RunAdds(ds, Acq(DynLock, Act(Extend, END_DYN_MAP)), FRESH, s);
    var r := AddAll(Start(s.blocklist), ds);
    RunEnds(FRESH.(added := r.added, errors := r.errors), Exec(Block(ds), s).0);
  }

  lemma UnblockMeans(ds: seq<Name>, s: Shared)
    ensures Means(Unblock(ds), s)
  {
    RunRemoves(ds, Acq(DynLock, Act(Retained(ds), END_DYN_MAP)), FRESH, s);
    var r := RemoveAll(Start(s.blocklist), ds);
    RunEnds(FRESH.(errors := r.errors), Exec(Unblock(ds), s).0);
  }

  lemma SyncMeans(ds: seq<Name>, ns: seq<string>, s: Shared)
    ensures Means(Sync(ds, ns), s)
  {
    var end := Rel(DynLock, Rel(AppsLock, END_MAP));
    var apps := Acq(AppsLock, Act(ClearNames, PutNames(ns, end)));
    var body := AddPushes(ds, true, apps);
    var (loc1, s1) := Do(ClearDomains, FRESH, s);
    assert Run(Acq(DynLock, Act(ClearDomains, body)), FRESH, s) == Run(body, loc1, s1);
    RunAddPushes(ds, true, apps, loc1, s1, []);
    var r := AddAll(Start(s1.blocklist), ds);
    var loc2 := loc1.(errors := r.errors);
    var s2 := s1.(blocklist := r.blocklist, dynamicBlocked := r.added);
    var s3 := s2.(apps := s2.apps.(names := {}, patterns := {}));
    assert Run(Act(ClearNames, PutNames(ns, end)), loc2, s2) == Run(PutNames(ns, end), loc2, s3);
    RunPutNames(ns, end, loc2, s3);
    RunEnds(loc2, s3.(apps := InsertNames(s3.apps, ns)));
  }

  lemma FocusOnMeans(ds: seq<Name>, s: Shared)
    ensures Means(FocusMode(true, ds), s)
  {
    var body := AddPushes(ds, false, Act(SetFocus(true), END_DYN_FOCUS_MAP));
    assert Run(Acq(FocusLock, Acq(DynLock, body)), FRESH, s) == Run(body, FRESH, s);
    RunAddPushes(ds, false, Act(SetFocus(true), END_DYN_FOCUS_MAP), FRESH, s, []);
    AddAllAppends(s.blocklist, s.dynamicBlocked, [], ds);
    RunEnds(FRESH, Exec(FocusMode(true, ds), s).0);
  }

  lemma FocusOffMeans(ds: seq<Name>, s: Shared)
    ensures Means(FocusMode(false, ds), s)
  {
    var (loc1, s1) := Do(ClearDomains, FRESH, s);
    var end := Act(SetFocus(false), END_DYN_FOCUS_MAP);
    RunEnds(FRESH, s1.(focus := false));
    assert Run(end, loc1, s1) == (FRESH, s1.(focus := false));
    assert Run(Acq(DynLock, Act(ClearDomains, end)), FRESH, s) == Run(end, loc1, s1);
    assert Run(Acq(FocusLock, Acq(DynLock, Act(ClearDomains, end))), FRESH, s) == Run(end, loc1, s1);
  }

  lemma BlockAppMeans(ps: seq<string>, ns: seq<string>, s: Shared)
    ensures Means(BlockApp(ps, ns), s)
  {
    RunPutPaths(ps, PutNames(ns, END_APPS), FRESH, s);
    RunPutNames(ns, END_APPS, FRESH, s.(apps := InsertPaths(s.apps, ps)));
    RunEnds(FRESH, Exec(BlockApp(ps, ns), s).0);
  }

  lemma UnblockAppMeans(ps: seq<string>, ns: seq<string>, s: Shared)
    ensures Means(UnblockApp(ps, ns), s)
  {
    RunDropPaths(ps, DropNames(ns, END_APPS), FRESH, s);
    RunDropNames(ns, END_APPS, FRESH, s.(apps := RemovePaths(s.apps, ps)));
    RunEnds(FRESH, Exec(UnblockApp(ps, ns), s).0);
  }

  lemma NamesMean(ns: seq<string>, s: Shared)
    ensures Means(BlockApps(ns), s) && Means(UnblockApps(ns), s)
  {
    RunPutNames(ns, END_APPS, FRESH, s);
    RunDropNames(ns, END_APPS, FRESH, s);
    RunEnds(FRESH, Exec(BlockApps(ns), s).0);
    RunEnds(FRESH, Exec(UnblockApps(ns), s).0);
  }

  lemma ProgramMeaning(cmd: Cmd, s: Shared)
    ensures Means(cmd, s)
  {
    match cmd
    case Block(ds) => BlockMeans(ds, s);
    case Unblock(ds) => UnblockMeans(ds, s);
    case Sync(ds, ns) => SyncMeans(ds, ns, s);
    case FocusMode(true, ds) => FocusOnMeans(ds, s);
    case FocusMode(false, ds) => FocusOffMeans(ds, s);
    case BlockApp(ps, ns) => BlockAppMeans(ps, ns, s);
    case UnblockApp(ps, ns) => UnblockAppMeans(ps, ns, s);
    case BlockApps(ns) => NamesMean(ns, s);
    case UnblockApps(ns) => NamesMean(ns, s);
  }

  // ----- Concurrent commands

  function Programs(cmds: seq<Cmd>): (progs: seq<Prog>)
    ensures |progs| == |cmds| && forall i :: 0 <= i < |cmds| ==> progs[i] == Program(cmds[i])
  {
    seq(|cmds|, i requires 0 <= i < |cmds| => Program(cmds[i]))
  }

  /** The commands executed one after the other in the given order, with their answers. */
  function ExecInOrder(cmds: seq<Cmd>, order: seq<nat>, s: Shared): (Shared, map<nat, Resp>)
    requires forall k :: 0 <= k < |order| ==> order[k] < |cmds|
  {
    if order == [] then (s, map[])
    else
      var last := order[|order| - 1];
      var (s', answers) := ExecInOrder(cmds, order[..|order| - 1], s);
      var (s'', resp) := Exec(cmds[last], s');
      (s'', answers[last := resp])
  }

  lemma {:induction false} OrderMeaning(cmds: seq<Cmd>, order: seq<nat>, s: Shared)
    requires forall k :: 0 <= k < |order| ==> order[k] < |cmds|
    ensures var (shared, locals) := RunInOrder(Programs(cmds), order, s);
            var (shared', answers) := ExecInOrder(cmds, order, s);
            && shared == shared'
            && locals.Keys == answers.Keys
            && forall i :: i in locals ==> answers[i] == Reply(locals[i].errors)
    decreases |order|
  {
    if order != [] {
      var last := order[|order| - 1];
      OrderMeaning(cmds, order[..|order| - 1], s);
      ProgramMeaning(cmds[last], RunInOrder(Programs(cmds), order[..|order| - 1], s).0);
    }
  }

  lemma CommandsTwoPhase(cmds: seq<Cmd>)
    ensures forall p <- Programs(cmds) :: TwoPhase(p, {}) && HasAcquire(p)
  {
    var progs := Programs(cmds);
    forall p | p in progs
      ensures TwoPhase(p, {}) && HasAcquire(p)
    {
      var i :| 0 <= i < |progs| && progs[i] == p;
      ProgramTwoPhase(cmds[i]);
    }
  }

  /** Any interleaving of commands, once all are finished, has left the state and given
      the answers of executing them one at a time in some order. */
  lemma CommandsSerializable(cmds: seq<Cmd>, run: seq<Machine>, s0: Shared) returns (order: seq<nat>)
    requires IsRun(run) && run[0] == Init(Programs(cmds), s0) && Finished(run[|run| - 1])
    ensures IsOrderOf(order, |cmds|)
    ensures var last := run[|run| - 1];
            var (shared, answers) := ExecInOrder(cmds, order, s0);
            && last.shared == shared
            && |last.threads| == |cmds|
            && forall i :: 0 <= i < |cmds| ==> i in answers && answers[i] == Reply(last.threads[i].local.errors)
  {
    CommandsTwoPhase(cmds);
    order := Serializability.Serializable(Programs(cmds), run, s0);
    OrderMeaning(cmds, order, s0);
  }
}

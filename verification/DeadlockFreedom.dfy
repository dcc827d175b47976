/** Threads that take locks in one global order never all wait: every reachable unfinished
    machine has a thread that can step, and every run ends. */
module DeadlockFreedom {
  import opened ControlState
  import opened LockMachine
  import opened ControlPrograms

  /** The order in which the daemon takes its locks. */
  function Rank(l: Lock): nat {
    match l
    case MapLock => 0
    case FocusLock => 1
    case DynLock => 2
    case AppsLock => 3
    case FreezerLock => 4
  }

  /** Holding these locks, the program only acquires locks of higher rank than all it
      holds, and releases everything. */
  predicate Ordered(p: Prog, held: set<Lock>) {
    match p
    case Done => held == {}
    case Acq(l, next) => (forall h :: h in held ==> Rank(h) < Rank(l)) && Ordered(next, held + {l})
    case Rel(l, next) => l in held && Ordered(next, held - {l})
    case Act(_, next) => Ordered(next, held)
    case Fork(left, right) => Ordered(left, held) && Ordered(right, held)
  }

  ghost predicate AllOrdered(m: Machine) {
    forall i :: 0 <= i < |m.threads| ==> Ordered(m.threads[i].rest, m.threads[i].held)
  }

  ghost predicate CanStep(m: Machine, i: nat)
    requires i < |m.threads|
  {
    exists m' :: StepOf(m, i, m')
  }

  function Patience(t: Thread): nat {
    if t.rest.Acq? then 5 - Rank(t.rest.lock) else 0
  }

  /** From an unfinished thread, whoever blocks it waits for a higher lock, so somebody runs. */
  lemma {:induction false} FindRunnable(m: Machine, i: nat) returns (j: nat)
    requires AllOrdered(m) && i < |m.threads| && m.threads[i].rest != Done
    ensures j < |m.threads| && CanStep(m, j)
    decreases Patience(m.threads[i])
  {
    var t := m.threads[i];
    j := i;
    match t.rest
    case Acq(l, next) =>
      if Free(m.threads, l) {
        assert StepOf(m, i, m.(threads := m.threads[i := Thread(next, t.held + {l}, t.local)]));
      } else {
        var k :| 0 <= k < |m.threads| && l in m.threads[k].held;
        j := FindRunnable(m, k);
      }
    case Rel(l, next) =>
      assert StepOf(m, i, m.(threads := m.threads[i := Thread(next, t.held - {l}, t.local)]));
    case Act(a, next) =>
      var (loc, s) := Do(a, t.local, m.shared);
      assert StepOf(m, i, Machine(s, m.threads[i := Thread(next, t.held, loc)]));
    case Fork(left, _) =>
      assert StepOf(m, i, m.(threads := m.threads[i := t.(rest := left)]));
  }

  lemma {:induction false} RunStaysOrdered(progs: seq<Prog>, run: seq<Machine>, s0: Shared, n: nat)
    requires forall p <- progs :: Ordered(p, {})
    requires IsRun(run) && run[0] == Init(progs, s0) && n < |run|
    ensures AllOrdered(run[n])
  {
    if n > 0 {
      RunStaysOrdered(progs, run, s0, n - 1);
      assert Next(run[n - 1], run[n - 1 + 1]);
    }
  }

  /** Every machine in a run of ordered programs is finished or has a thread that can step. */
  lemma NoDeadlock(progs: seq<Prog>, run: seq<Machine>, s0: Shared, n: nat)
    requires forall p <- progs :: Ordered(p, {})
    requires IsRun(run) && run[0] == Init(progs, s0) && n < |run|
    ensures Finished(run[n]) || exists i: nat :: i < |run[n].threads| && CanStep(run[n], i)
  {
    RunStaysOrdered(progs, run, s0, n);
    if !Finished(run[n]) {
      var i :| 0 <= i < |run[n].threads| && run[n].threads[i].rest != Done;
      var j := FindRunnable(run[n], i);
    }
  }

  // ----- Runs end

  function Size(p: Prog): nat {
    match p
    case Done => 0
    case Acq(_, next) => 1 + Size(next)
    case Rel(_, next) => 1 + Size(next)
    case Act(_, next) => 1 + Size(next)
    case Fork(left, right) => 1 + Size(left) + Size(right)
  }

  function TotalSize(ts: seq<Thread>): nat {
    if ts == [] then 0 else Size(ts[0].rest) + TotalSize(ts[1..])
  }

  lemma {:induction false} TotalSizeDrops(ts: seq<Thread>, i: nat, t: Thread)
    requires i < |ts| && Size(t.rest) < Size(ts[i].rest)
    ensures TotalSize(ts[i := t]) < TotalSize(ts)
    decreases |ts|
  {
    if i > 0 {
      assert ts[i := t][1..] == ts[1..][i - 1 := t];
      TotalSizeDrops(ts[1..], i - 1, t);
    } else {
      assert ts[i := t][1..] == ts[1..];
    }
  }

  lemma StepDrops(m: Machine, m': Machine)
    requires Next(m, m')
    ensures TotalSize(m'.threads) < TotalSize(m.threads)
  {
    var i: nat :| i < |m.threads| && StepOf(m, i, m');
    assert m'.threads == m.threads[i := m'.threads[i]];
    TotalSizeDrops(m.threads, i, m'.threads[i]);
  }

  /** No run is longer than the programs together: with NoDeadlock, every run can be
      extended until all threads are finished, and in no other way comes to an end. */
  lemma {:induction false} RunsEnd(run: seq<Machine>)
    requires IsRun(run)
    ensures |run| <= 1 + TotalSize(run[0].threads)
    decreases |run|
  {
    if |run| > 1 {
      var rest := run[1..];
      forall k | 0 <= k < |rest| - 1
        ensures Next(rest[k], rest[k + 1])
      {
        assert Next(run[k + 1], run[k + 1 + 1]);
      }
      RunsEnd(rest);
      assert Next(run[0], run[0 + 1]);
      StepDrops(run[0], run[1]);
    }
  }

  // ----- The daemon's programs

  lemma {:induction false} DomainLoopsOrdered(ds: seq<Name>, report: bool, next: Prog, held: set<Lock>)
    requires Ordered(next, held)
    ensures Ordered(Adds(ds, next), held) && Ordered(Removes(ds, next), held)
    ensures Ordered(AddPushes(ds, report, next), held)
    decreases |ds|
  {
    if ds != [] {
      DomainLoopsOrdered(ds[1..], report, next, held);
    }
  }

  lemma {:induction false} AppLoopsOrdered(ns: seq<string>, next: Prog, held: set<Lock>)
    requires Ordered(next, held)
    ensures Ordered(PutNames(ns, next), held) && Ordered(DropNames(ns, next), held)
    ensures Ordered(PutPaths(ns, next), held) && Ordered(DropPaths(ns, next), held)
    decreases |ns|
  {
    if ns != [] {
      AppLoopsOrdered(ns[1..], next, held);
    }
  }

  lemma EndsOrdered()
    ensures Ordered(END_DYN_MAP, {MapLock, DynLock})
    ensures Ordered(END_DYN_FOCUS_MAP, {MapLock, FocusLock, DynLock})
    ensures Ordered(END_APPS, {AppsLock})
    ensures Ordered(Rel(DynLock, Rel(AppsLock, END_MAP)), {MapLock, DynLock, AppsLock})
  {
    assert {MapLock} - {MapLock} == {} && {AppsLock} - {AppsLock} == {};
    assert {MapLock, DynLock} - {DynLock} == {MapLock};
    assert {MapLock, FocusLock, DynLock} - {DynLock} == {MapLock, FocusLock};
    assert {MapLock, FocusLock} - {FocusLock} == {MapLock};
    assert {MapLock, DynLock, AppsLock} - {DynLock} == {MapLock, AppsLock};
    assert {MapLock, AppsLock} - {AppsLock} == {MapLock};
  }

  lemma MapDynOrdered(body: Prog)
    ensures Ordered(body, {MapLock, DynLock}) ==> Ordered(Acq(DynLock, body), {MapLock})
    ensures Ordered(body, {MapLock}) ==> Ordered(Acq(MapLock, body), {})
    ensures Ordered(body, {AppsLock}) ==> Ordered(Acq(AppsLock, body), {})
    ensures Ordered(body, {MapLock, DynLock, AppsLock}) ==> Ordered(Acq(AppsLock, body), {MapLock, DynLock})
    ensures Ordered(body, {MapLock, FocusLock}) ==> Ordered(Acq(FocusLock, body), {MapLock})
    ensures Ordered(body, {MapLock, FocusLock, DynLock}) ==> Ordered(Acq(DynLock, body), {MapLock, FocusLock})
  {
    assert {} + {MapLock} == {MapLock} && {} + {AppsLock} == {AppsLock};
    assert {MapLock} + {DynLock} == {MapLock, DynLock};
    assert {MapLock, DynLock} + {AppsLock} == {MapLock, DynLock, AppsLock};
    assert {MapLock} + {FocusLock} == {MapLock, FocusLock};
    assert {MapLock, FocusLock} + {DynLock} == {MapLock, FocusLock, DynLock};
  }

  lemma FocusOrdered(body: Prog)
    requires Ordered(body, {MapLock, FocusLock, DynLock})
    ensures Ordered(Acq(MapLock, Acq(FocusLock, Acq(DynLock, body))), {})
  {
    MapDynOrdered(body);
    MapDynOrdered(Acq(DynLock, body));
    MapDynOrdered(Acq(FocusLock, Acq(DynLock, body)));
  }

  lemma DomainsOrdered(ds: seq<Name>)
    ensures Ordered(Program(Block(ds)), {}) && Ordered(Program(Unblock(ds)), {})
  {
    EndsOrdered();
    var add, drop := Act(Extend, END_DYN_MAP), Act(Retained(ds), END_DYN_MAP);
    MapDynOrdered(add);
    MapDynOrdered(drop);
    DomainLoopsOrdered(ds, true, Acq(DynLock, add), {MapLock});
    DomainLoopsOrdered(ds, true, Acq(DynLock, drop), {MapLock});
    MapDynOrdered(Adds(ds, Acq(DynLock, add)));
    MapDynOrdered(Removes(ds, Acq(DynLock, drop)));
  }

  lemma SyncOrdered(ds: seq<Name>, ns: seq<string>)
    ensures Ordered(Program(Sync(ds, ns)), {})
  {
    EndsOrdered();
    var end := Rel(DynLock, Rel(AppsLock, END_MAP));
    AppLoopsOrdered(ns, end, {MapLock, DynLock, AppsLock});
    var apps := Act(ClearNames, PutNames(ns, end));
    MapDynOrdered(apps);
    DomainLoopsOrdered(ds, true, Acq(AppsLock, apps), {MapLock, DynLock});
    var body := Act(ClearDomains, AddPushes(ds, true, Acq(AppsLock, apps)));
    MapDynOrdered(body);
    MapDynOrdered(Acq(DynLock, body));
  }

  lemma FocusModeOrdered(on: bool, ds: seq<Name>)
    ensures Ordered(Program(FocusMode(on, ds)), {})
  {
    EndsOrdered();
    var end := Act(SetFocus(on), END_DYN_FOCUS_MAP);
    DomainLoopsOrdered(ds, false, end, {MapLock, FocusLock, DynLock});
    FocusOrdered(AddPushes(ds, false, end));
    FocusOrdered(Act(ClearDomains, end));
  }

  lemma NamesOrdered(ns: seq<string>)
    ensures Ordered(PutNames(ns, END_APPS), {AppsLock}) && Ordered(DropNames(ns, END_APPS), {AppsLock})
    ensures Ordered(Program(BlockApps(ns)), {}) && Ordered(Program(UnblockApps(ns)), {})
  {
    EndsOrdered();
    AppLoopsOrdered(ns, END_APPS, {AppsLock});
    MapDynOrdered(PutNames(ns, END_APPS));
    MapDynOrdered(DropNames(ns, END_APPS));
  }

  lemma AppOrdered(ps: seq<string>, ns: seq<string>)
    ensures Ordered(Program(BlockApp(ps, ns)), {}) && Ordered(Program(UnblockApp(ps, ns)), {})
  {
    var put, drop := PutNames(ns, END_APPS), DropNames(ns, END_APPS);
    NamesOrdered(ns);
    AppLoopsOrdered(ps, put, {AppsLock});
    AppLoopsOrdered(ps, drop, {AppsLock});
    MapDynOrdered(PutPaths(ps, put));
    MapDynOrdered(DropPaths(ps, drop));
  }

  lemma ProgramOrdered(cmd: Cmd)
    ensures Ordered(Program(cmd), {})
  {
    match cmd
    case Block(ds) => DomainsOrdered(ds);
    case Unblock(ds) => DomainsOrdered(ds);
    case Sync(ds, ns) => SyncOrdered(ds, ns);
    case FocusMode(on, ds) => FocusModeOrdered(on, ds);
    case BlockApp(ps, ns) => AppOrdered(ps, ns);
    case UnblockApp(ps, ns) => AppOrdered(ps, ns);
    case BlockApps(ns) => NamesOrdered(ns);
    case UnblockApps(ns) => NamesOrdered(ns);
  }

  /** Taking a lock alone, doing anything and releasing it. */
  lemma AloneOrdered(l: Lock, a: Action, next: Prog)
    requires Ordered(next, {})
    ensures Ordered(Acq(l, Act(a, Rel(l, next))), {})
  {
    assert ({} + {l}) - {l} == {};
    assert Ordered(Act(a, Rel(l, next)), {} + {l});
  }

  lemma StatusOrdered()
    ensures Ordered(STATUS_PROGRAM, {})
  {
    EndsOrdered();
    var inner := Rel(FreezerLock, END_APPS);
    assert {AppsLock} + {FreezerLock} == {AppsLock, FreezerLock};
    assert {AppsLock, FreezerLock} - {FreezerLock} == {AppsLock};
    assert Ordered(inner, {AppsLock, FreezerLock});
    var apps := Act(ReadApps, Acq(FreezerLock, Act(Work, inner)));
    assert Ordered(Acq(FreezerLock, Act(Work, inner)), {AppsLock});
    assert {} + {AppsLock} == {AppsLock};
    AloneOrdered(FocusLock, ReadFocus, Acq(AppsLock, apps));
    AloneOrdered(DynLock, ReadDyn, Acq(FocusLock, Act(ReadFocus, Rel(FocusLock, Acq(AppsLock, apps)))));
  }

  lemma {:induction false} LoopsOrdered(n: nat)
    ensures Ordered(FreezeProgram(n), {}) && Ordered(ThawProgram(n), {})
    ensures Ordered(WatchProgram(n), {}) && Ordered(TunProgram(n), {})
  {
    if n > 0 {
      LoopsOrdered(n - 1);
      var next := FreezeProgram(n - 1);
      AloneOrdered(FreezerLock, Work, next);
      var record := Act(Work, Acq(FreezerLock, Act(Work, Rel(FreezerLock, next))));
      assert Ordered(record, {});
      assert Ordered(Act(Work, Fork(next, record)), {});
      AloneOrdered(FreezerLock, Work, Fork(next, Act(Work, Fork(next, record))));
      AloneOrdered(FreezerLock, Work, Act(Work, ThawProgram(n - 1)));
      AloneOrdered(AppsLock, ReadApps, Act(Work, WatchProgram(n - 1)));
      AloneOrdered(MapLock, Work, TunProgram(n - 1));
    }
  }

  /** What a thread of the daemon may be running. */
  datatype Task = Command(cmd: Cmd) | Status | FreezeApp(n: nat) | ThawApp(n: nat) | ExecWatch(n: nat) | TunPoll(n: nat)

  function TaskProgram(t: Task): Prog {
    match t
    case Command(cmd) => Program(cmd)
    case Status => STATUS_PROGRAM
    case FreezeApp(n) => FreezeProgram(n)
    case ThawApp(n) => ThawProgram(n)
    case ExecWatch(n) => WatchProgram(n)
    case TunPoll(n) => TunProgram(n)
  }

  function TaskPrograms(tasks: seq<Task>): (progs: seq<Prog>)
    ensures |progs| == |tasks| && forall i :: 0 <= i < |tasks| ==> progs[i] == TaskProgram(tasks[i])
  {
    seq(|tasks|, i requires 0 <= i < |tasks| => TaskProgram(tasks[i]))
  }

  /** Whatever mix of handlers runs beside the exec-event thread and the TUN loop, in
      every machine that can be reached either all are finished or some thread can step. */
  lemma DaemonNeverDeadlocks(tasks: seq<Task>, run: seq<Machine>, s0: Shared, n: nat)
    requires IsRun(run) && run[0] == Init(TaskPrograms(tasks), s0) && n < |run|
    ensures Finished(run[n]) || exists i: nat :: i < |run[n].threads| && CanStep(run[n], i)
  {
    var progs := TaskPrograms(tasks);
    forall p | p in progs
      ensures Ordered(p, {})
    {
      var i :| 0 <= i < |progs| && progs[i] == p;
      match tasks[i]
      case Command(cmd) => ProgramOrdered(cmd);
      case Status => StatusOrdered();
      case FreezeApp(k) => LoopsOrdered(k);
      case ThawApp(k) => LoopsOrdered(k);
      case ExecWatch(k) => LoopsOrdered(k);
      case TunPoll(k) => LoopsOrdered(k);
    }
    NoDeadlock(progs, run, s0, n);
  }
}

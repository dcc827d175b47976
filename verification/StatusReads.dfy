/** The Status handler releases each lock before it takes the next, so what it reports need
    not be a state the daemon was ever in. */
module StatusReads {
  import opened ControlState
  import opened LockMachine
  import opened Serializability
  import opened ControlPrograms
  import opened BlocklistKeys
  import opened DomainRuns

  /** The program releases what it holds and acquires only what it does not. */
  predicate Balanced(p: Prog, held: set<Lock>) {
    match p
    case Done => held == {}
    case Acq(l, next) => l !in held && Balanced(next, held + {l})
    case Rel(l, next) => l in held && Balanced(next, held - {l})
    case Act(_, next) => Balanced(next, held)
    case Fork(_, _) => false
  }

  ghost predicate Leads(run: seq<Machine>, m: Machine, m': Machine) {
    IsRun(run) && run[0] == m && run[|run| - 1] == m'
  }

  lemma Prepend(m: Machine, i: nat, m1: Machine, rest: seq<Machine>, m': Machine)
    requires i < |m.threads| && StepOf(m, i, m1) && Leads(rest, m1, m')
    ensures Leads([m] + rest, m, m')
  {
    var run := [m] + rest;
    forall k | 0 <= k < |run| - 1
      ensures Next(run[k], run[k + 1])
    {
      if k > 0 {
        assert Next(rest[k - 1], rest[k - 1 + 1]);
      }
    }
  }

  lemma Join(a: seq<Machine>, b: seq<Machine>, m: Machine, m1: Machine, m': Machine)
    requires Leads(a, m, m1) && Leads(b, m1, m')
    ensures Leads(a + b[1..], m, m')
  {
    var run := a + b[1..];
    forall k | 0 <= k < |run| - 1
      ensures Next(run[k], run[k + 1])
    {
      if k < |a| - 1 {
        assert Next(a[k], a[k + 1]);
      } else {
        var j := k - (|a| - 1);
        assert Next(b[j], b[j + 1]);
        assert run[k] == b[j] && run[k + 1] == b[j + 1];
      }
    }
  }

  /** While nobody else holds a lock, a thread can run to its end. */
  lemma {:induction false} RunAlone(m: Machine, i: nat) returns (run: seq<Machine>)
    requires i < |m.threads| && Balanced(m.threads[i].rest, m.threads[i].held)
    requires forall j :: 0 <= j < |m.threads| && j != i ==> m.threads[j].held == {}
    ensures var t := m.threads[i];
            var (loc, s) := Run(t.rest, t.local, m.shared);
            Leads(run, m, Machine(s, m.threads[i := Thread(Done, {}, loc)]))
    decreases m.threads[i].rest
  {
    var t := m.threads[i];
    var m1: Machine;
    match t.rest {
      case Done =>
        assert m.threads[i := t] == m.threads;
        return [m];
      case Acq(l, next) => m1 := m.(threads := m.threads[i := Thread(next, t.held + {l}, t.local)]);
      case Rel(l, next) => m1 := m.(threads := m.threads[i := Thread(next, t.held - {l}, t.local)]);
      case Act(a, next) =>
        var (loc, s) := Do(a, t.local, m.shared);
        m1 := Machine(s, m.threads[i := Thread(next, t.held, loc)]);
    }
    run := RunAlone(m1, i);
    var (end, final) := Run(t.rest, t.local, m.shared);
    assert m1.threads[i := Thread(Done, {}, end)] == m.threads[i := Thread(Done, {}, end)];
    Prepend(m, i, m1, run, Machine(final, m.threads[i := Thread(Done, {}, end)]));
    run := [m] + run;
  }

  const AFTER_LIST: Prog :=
    Acq(FocusLock, Act(ReadFocus, Rel(FocusLock,
    Acq(AppsLock, Act(ReadApps, Acq(FreezerLock, Act(Work, Rel(FreezerLock, END_APPS))))))))

  lemma AfterListBalanced()
    ensures Balanced(AFTER_LIST, {})
    ensures STATUS_PROGRAM == Acq(DynLock, Act(ReadDyn, Rel(DynLock, AFTER_LIST)))
  {
    assert ({} + {FocusLock}) - {FocusLock} == {} && ({} + {AppsLock}) - {AppsLock} == {};
    assert ({AppsLock} + {FreezerLock}) - {FreezerLock} == {AppsLock} && {} + {AppsLock} == {AppsLock};
    assert Balanced(END_APPS, {AppsLock});
    var tail := Acq(FreezerLock, Act(Work, Rel(FreezerLock, END_APPS)));
    assert Balanced(Act(Work, Rel(FreezerLock, END_APPS)), {AppsLock} + {FreezerLock});
    assert Balanced(tail, {AppsLock});
    assert Balanced(Act(ReadApps, tail), {} + {AppsLock});
    assert Balanced(Acq(AppsLock, Act(ReadApps, tail)), {});
    assert Balanced(Rel(FocusLock, Acq(AppsLock, Act(ReadApps, tail))), {} + {FocusLock});
    assert Balanced(Act(ReadFocus, Rel(FocusLock, Acq(AppsLock, Act(ReadApps, tail)))), {} + {FocusLock});
  }

  lemma RunAfterList(loc: Local, s: Shared)
    ensures Run(AFTER_LIST, loc, s) == (loc.(focus := s.focus, apps := s.apps), s)
  {
    RunEnds(loc.(focus := s.focus, apps := s.apps), s);
    var tail := Acq(FreezerLock, Act(Work, Rel(FreezerLock, END_APPS)));
    var read := loc.(focus := s.focus);
    assert Run(Act(Work, Rel(FreezerLock, END_APPS)), read.(apps := s.apps), s) == (read.(apps := s.apps), s);
    assert Run(tail, read.(apps := s.apps), s) == (read.(apps := s.apps), s);
    assert Run(Acq(AppsLock, Act(ReadApps, tail)), read, s) == (read.(apps := s.apps), s);
    assert Run(Rel(FocusLock, Acq(AppsLock, Act(ReadApps, tail))), read, s) == (read.(apps := s.apps), s);
  }

  /** Run alone, Status reports the state. */
  lemma StatusAlone(loc: Local, s: Shared)
    ensures Run(STATUS_PROGRAM, loc, s) == (loc.(dyn := s.dynamicBlocked, focus := s.focus, apps := s.apps), s)
  {
    AfterListBalanced();
    var (loc1, s1) := Do(ReadDyn, loc, s);
    RunAfterList(loc1, s);
    assert Run(Rel(DynLock, AFTER_LIST), loc1, s) == Run(AFTER_LIST, loc1, s);
    assert Run(Act(ReadDyn, Rel(DynLock, AFTER_LIST)), loc, s) == Run(AFTER_LIST, loc1, s);
  }

  lemma {:induction false} TwoPhaseBalanced(p: Prog, held: set<Lock>)
    requires TwoPhase(p, held)
    ensures Balanced(p, held)
  {
    match p
    case Done =>
    case Acq(l, next) => TwoPhaseBalanced(next, held + {l});
    case Rel(l, next) => TwoPhaseBalanced(next, held - {l});
    case Act(_, next) => TwoPhaseBalanced(next, held);
  }

  /** While no lock is held, the first thread takes a lock for one action and releases it. */
  lemma LockedAction(m0: Machine, l: Lock, a: Action, next: Prog, m3: Machine) returns (run: seq<Machine>)
    requires m0.threads != [] && forall j :: 0 <= j < |m0.threads| ==> m0.threads[j].held == {}
    requires m0.threads[0].rest == Acq(l, Act(a, Rel(l, next)))
    requires var (loc, s) := Do(a, m0.threads[0].local, m0.shared);
             m3 == Machine(s, m0.threads[0 := Thread(next, {}, loc)])
    ensures Leads(run, m0, m3)
  {
    var t := m0.threads[0];
    var (loc, s) := Do(a, t.local, m0.shared);
    var m1 := m0.(threads := m0.threads[0 := Thread(Act(a, Rel(l, next)), {} + {l}, t.local)]);
    var m2 := Machine(s, m0.threads[0 := Thread(Rel(l, next), {} + {l}, loc)]);
    assert m2.threads == m1.threads[0 := Thread(Rel(l, next), {} + {l}, loc)];
    assert ({} + {l}) - {l} == {};
    assert m3.threads == m2.threads[0 := Thread(next, ({} + {l}) - {l}, loc)];
    assert StepOf(m0, 0, m1) && StepOf(m1, 0, m2) && StepOf(m2, 0, m3);
    Prepend(m2, 0, m3, [m3], m3);
    Prepend(m1, 0, m2, [m2] + [m3], m3);
    Prepend(m0, 0, m1, [m1] + ([m2] + [m3]), m3);
    run := [m0] + ([m1] + ([m2] + [m3]));
  }

  /** The run in which a whole command falls between Status's first two reads. */
  lemma TornRun(cmd: Cmd, s0: Shared) returns (run: seq<Machine>)
    ensures IsRun(run) && run[0] == Init([STATUS_PROGRAM, Program(cmd)], s0) && Finished(run[|run| - 1])
    ensures var (last, s1) := (run[|run| - 1], Exec(cmd, s0).0);
            |last.threads| == 2 && last.threads[0].local ==
            FRESH.(dyn := s0.dynamicBlocked, focus := s1.focus, apps := s1.apps)
  {
    var prog := Program(cmd);
    AfterListBalanced();
    ProgramTwoPhase(cmd);
    TwoPhaseBalanced(prog, {});
    var idle := Thread(prog, {}, FRESH);
    var m0 := Machine(s0, [Thread(STATUS_PROGRAM, {}, FRESH), idle]);
    assert m0 == Init([STATUS_PROGRAM, prog], s0);
    var read := FRESH.(dyn := s0.dynamicBlocked);
    var m3 := Machine(s0, [Thread(AFTER_LIST, {}, read), idle]);
    assert m3.threads == m0.threads[0 := Thread(AFTER_LIST, {}, read)];
    var start := LockedAction(m0, DynLock, ReadDyn, AFTER_LIST, m3);
    var middle := RunAlone(m3, 1);
    ProgramMeaning(cmd, s0);
    var (loc, s1) := Run(prog, FRESH, s0);
    var m4 := Machine(s1, [Thread(AFTER_LIST, {}, read), Thread(Done, {}, loc)]);
    assert m4 == Machine(s1, m3.threads[1 := Thread(Done, {}, loc)]);
    var final := RunAlone(m4, 0);
    RunAfterList(read, s1);
    var (loc', s2) := Run(AFTER_LIST, read, s1);
    var m5 := Machine(s2, m4.threads[0 := Thread(Done, {}, loc')]);
    Join(middle, final, m3, m4, m5);
    Join(start, middle + final[1..], m0, m3, m5);
    run := start + (middle + final[1..])[1..];
  }

  // ----- Every locked read sees its part as it was before the command or as it is after it

  predicate ReadOnly(a: Action) {
    a.ReadDyn? || a.ReadFocus? || a.ReadApps? || a.Work?
  }

  /** The program only reads, and only under the locks it holds. */
  predicate Guarded(p: Prog, held: set<Lock>) {
    match p
    case Done => true
    case Acq(l, next) => Guarded(next, held + {l})
    case Rel(l, next) => Guarded(next, held - {l})
    case Act(a, next) => ReadOnly(a) && Footprint(a) <= held && Guarded(next, held)
    case Fork(_, _) => false
  }

  predicate WillDo(p: Prog, a: Action) {
    match p
    case Done => false
    case Acq(_, next) => WillDo(next, a)
    case Rel(_, next) => WillDo(next, a)
    case Act(b, next) => a == b || WillDo(next, a)
    case Fork(left, right) => WillDo(left, a) || WillDo(right, a)
  }

  /** What has been read is the part before the command, or the part after it. */
  predicate EachReadSerial(p: Prog, loc: Local, s0: Shared, s1: Shared) {
    && loc.added == [] && loc.errors == []
    && (WillDo(p, ReadDyn) || loc.dyn == s0.dynamicBlocked || loc.dyn == s1.dynamicBlocked)
    && (WillDo(p, ReadFocus) || loc.focus == s0.focus || loc.focus == s1.focus)
    && (WillDo(p, ReadApps) || loc.apps == s0.apps || loc.apps == s1.apps)
  }

  /** The writer is on its way to s1; what it does not hold is as before it started, or it
      acquires nothing more and that is as it will be at the end. */
  ghost predicate WriterInv(w: Thread, s: Shared, s0: Shared, s1: Shared) {
    && TwoPhase(w.rest, w.held) && Run(w.rest, w.local, s).1 == s1
    && (!HasAcquire(w.rest) || forall l :: l !in w.held ==> SameAt(l, s, s0))
  }

  ghost predicate PairInv(m: Machine, s0: Shared, s1: Shared) {
    && |m.threads| == 2
    && m.threads[0].held !! m.threads[1].held
    && Guarded(m.threads[0].rest, m.threads[0].held)
    && EachReadSerial(m.threads[0].rest, m.threads[0].local, s0, s1)
    && WriterInv(m.threads[1], m.shared, s0, s1)
  }

  lemma WriterParts(w: Thread, s: Shared, s0: Shared, s1: Shared, l: Lock)
    requires WriterInv(w, s, s0, s1) && l !in w.held
    ensures SameAt(l, s, s0) || SameAt(l, s, s1)
  {
    if !HasAcquire(w.rest) {
      RunFrame(w.rest, w.held, w.local, s, s);
      MixSelf(w.held, s, s);
      assert Mix(w.held, Run(w.rest, w.local, s).1, s) == s1;
    }
  }

  /** One action of the reader, when the parts it reads are as before or as after. */
  lemma ReadStep(a: Action, next: Prog, loc: Local, s: Shared, s0: Shared, s1: Shared)
    requires ReadOnly(a) && EachReadSerial(Act(a, next), loc, s0, s1)
    requires forall l :: l in Footprint(a) ==> SameAt(l, s, s0) || SameAt(l, s, s1)
    ensures Do(a, loc, s).1 == s && EachReadSerial(next, Do(a, loc, s).0, s0, s1)
  {
    match a
    case ReadDyn => assert DynLock in Footprint(a);
    case ReadFocus => assert FocusLock in Footprint(a);
    case ReadApps => assert AppsLock in Footprint(a);
    case Work =>
  }

  lemma ReaderStep(m: Machine, m': Machine, s0: Shared, s1: Shared)
    requires PairInv(m, s0, s1) && StepOf(m, 0, m')
    ensures PairInv(m', s0, s1)
  {
    var r, w := m.threads[0], m.threads[1];
    match r.rest
    case Acq(l, next) =>
      assert l !in w.held;
    case Rel(l, next) =>
    case Act(a, next) =>
      forall l | l in Footprint(a)
        ensures SameAt(l, m.shared, s0) || SameAt(l, m.shared, s1)
      {
        WriterParts(w, m.shared, s0, s1, l);
      }
      ReadStep(a, next, r.local, m.shared, s0, s1);
  }

  lemma WriterStep(m: Machine, m': Machine, s0: Shared, s1: Shared)
    requires PairInv(m, s0, s1) && StepOf(m, 1, m')
    ensures PairInv(m', s0, s1)
  {
    var r, w := m.threads[0], m.threads[1];
    match w.rest
    case Acq(l, next) =>
      assert l !in r.held;
    case Rel(l, next) =>
    case Act(a, next) =>
      forall l | l !in w.held
        ensures SameAt(l, m.shared, m'.shared)
      {
        DoElsewhere(a, w.local, m.shared, l);
      }
  }

  lemma {:induction false} PairInvHolds(run: seq<Machine>, cmd: Cmd, s0: Shared, n: nat)
    requires IsRun(run) && run[0] == Init([STATUS_PROGRAM, Program(cmd)], s0) && n < |run|
    ensures PairInv(run[n], s0, Exec(cmd, s0).0)
  {
    if n == 0 {
      StatusGuarded();
      ProgramTwoPhase(cmd);
      ProgramMeaning(cmd, s0);
    } else {
      PairInvHolds(run, cmd, s0, n - 1);
      assert Next(run[n - 1], run[n - 1 + 1]);
      var i: nat :| i < 2 && StepOf(run[n - 1], i, run[n]);
      if i == 0 {
        ReaderStep(run[n - 1], run[n], s0, Exec(cmd, s0).0);
      } else {
        WriterStep(run[n - 1], run[n], s0, Exec(cmd, s0).0);
      }
    }
  }

  lemma StatusGuarded()
    ensures Guarded(STATUS_PROGRAM, {})
    ensures WillDo(STATUS_PROGRAM, ReadDyn) && WillDo(STATUS_PROGRAM, ReadFocus) && WillDo(STATUS_PROGRAM, ReadApps)
  {
    AfterListBalanced();
    var tail := Act(ReadApps, Acq(FreezerLock, Act(Work, Rel(FreezerLock, END_APPS))));
    assert Guarded(END_APPS, ({} + {AppsLock} + {FreezerLock}) - {FreezerLock});
    assert Guarded(Rel(FreezerLock, END_APPS), {} + {AppsLock} + {FreezerLock});
    assert Guarded(Acq(FreezerLock, Act(Work, Rel(FreezerLock, END_APPS))), {} + {AppsLock});
    assert Guarded(tail, {} + {AppsLock});
    assert WillDo(tail, ReadApps);
    assert ({} + {FocusLock}) - {FocusLock} == {} && ({} + {DynLock}) - {DynLock} == {};
    assert Guarded(Act(ReadFocus, Rel(FocusLock, Acq(AppsLock, tail))), {} + {FocusLock});
    assert Guarded(AFTER_LIST, {});
    assert WillDo(Act(ReadFocus, Rel(FocusLock, Acq(AppsLock, tail))), ReadApps);
    assert WillDo(AFTER_LIST, ReadFocus) && WillDo(AFTER_LIST, ReadApps);
    assert Guarded(Act(ReadDyn, Rel(DynLock, AFTER_LIST)), {} + {DynLock});
    assert WillDo(Act(ReadDyn, Rel(DynLock, AFTER_LIST)), ReadFocus) && WillDo(Act(ReadDyn, Rel(DynLock, AFTER_LIST)), ReadApps);
  }

  // ----- Exactly when Status is serializable

  lemma TwoOfThree(x: nat, y: nat, z: nat)
    ensures x < 2 && y < 2 && z < 2 ==> x == y || x == z || y == z
  {
  }

  lemma OrdersOfTwo(order: seq<nat>)
    requires IsOrderOf(order, 2)
    ensures order == [0, 1] || order == [1, 0]
  {
    assert (0 as nat) in order && (1 as nat) in order;
    if |order| > 2 {
      TwoOfThree(order[0], order[1], order[2]);
    }
  }

  lemma BothOrders(a: seq<nat>, b: seq<nat>)
    requires a == [0, 1] && b == [1, 0]
    ensures IsOrderOf(a, 2) && IsOrderOf(b, 2)
  {
    forall i | 0 <= i < 2
      ensures i in a && i in b
    {
      assert a[i] == i && b[1 - i] == i;
    }
  }

  /** What Status reads when it runs first, and when it runs second. */
  lemma StatusInOrder(cmd: Cmd, progs: seq<Prog>, s0: Shared)
    requires progs == [STATUS_PROGRAM, Program(cmd)]
    ensures var s1 := Exec(cmd, s0).0;
            var (first, second) := (RunInOrder(progs, [0, 1], s0).1, RunInOrder(progs, [1, 0], s0).1);
            && 0 in first && first[0] == FRESH.(dyn := s0.dynamicBlocked, focus := s0.focus, apps := s0.apps)
            && 0 in second && second[0] == FRESH.(dyn := s1.dynamicBlocked, focus := s1.focus, apps := s1.apps)
  {
    StatusAlone(FRESH, s0);
    ProgramMeaning(cmd, s0);
    StatusAlone(FRESH, Exec(cmd, s0).0);
    assert [0, 1][..1] == [0] && [1, 0][..1] == [1] && [0][..0] == [] && [1][..0] == [];
    assert RunInOrder(progs, [], s0) == (s0, map[]);
    assert RunInOrder(progs, [0], s0).0 == s0 && 0 in RunInOrder(progs, [0], s0).1;
    assert RunInOrder(progs, [1], s0).0 == Exec(cmd, s0).0;
  }

  /** Some order of the two handlers gives Status these locals. */
  ghost predicate SerialFor(cmd: Cmd, s0: Shared, loc: Local) {
    var progs := [STATUS_PROGRAM, Program(cmd)];
    exists order: seq<nat> :: (IsOrderOf(order, 2)
                               && var locals := RunInOrder(progs, order, s0).1; 0 in locals && locals[0] == loc)
  }

  lemma SerialForMeaning(cmd: Cmd, s0: Shared, loc: Local)
    ensures var s1 := Exec(cmd, s0).0;
            SerialFor(cmd, s0, loc) <==>
            || loc == FRESH.(dyn := s0.dynamicBlocked, focus := s0.focus, apps := s0.apps)
            || loc == FRESH.(dyn := s1.dynamicBlocked, focus := s1.focus, apps := s1.apps)
  {
    StatusInOrder(cmd, [STATUS_PROGRAM, Program(cmd)], s0);
    BothOrders([0, 1], [1, 0]);
    if SerialFor(cmd, s0, loc) {
      var order: seq<nat> :| IsOrderOf(order, 2)
        && var locals := RunInOrder([STATUS_PROGRAM, Program(cmd)], order, s0).1; 0 in locals && locals[0] == loc;
      OrdersOfTwo(order);
    }
  }

  /** Beside this command, every finished run leaves Status what one of the orders gives. */
  ghost predicate StatusSerializable(cmd: Cmd, s0: Shared) {
    forall run: seq<Machine> ::
      IsRun(run) && run[0] == Init([STATUS_PROGRAM, Program(cmd)], s0) && Finished(run[|run| - 1]) ==>
        |run[|run| - 1].threads| == 2 && SerialFor(cmd, s0, run[|run| - 1].threads[0].local)
  }

  /** The list, the flag and the sets: at most one of them differs. */
  predicate AtMostOneDiffers(a: Shared, b: Shared) {
    || (a.focus == b.focus && a.apps == b.apps)
    || (a.dynamicBlocked == b.dynamicBlocked && a.apps == b.apps)
    || (a.dynamicBlocked == b.dynamicBlocked && a.focus == b.focus)
  }

  lemma FocusOrApps(cmd: Cmd, s: Shared)
    ensures Exec(cmd, s).0.focus == s.focus || Exec(cmd, s).0.apps == s.apps
  {
  }

  lemma OneDiffersSerial(cmd: Cmd, s0: Shared, run: seq<Machine>)
    requires IsRun(run) && run[0] == Init([STATUS_PROGRAM, Program(cmd)], s0) && Finished(run[|run| - 1])
    requires AtMostOneDiffers(s0, Exec(cmd, s0).0)
    ensures |run[|run| - 1].threads| == 2 && SerialFor(cmd, s0, run[|run| - 1].threads[0].local)
  {
    PairInvHolds(run, cmd, s0, |run| - 1);
    SerialForMeaning(cmd, s0, run[|run| - 1].threads[0].local);
  }

  /** Status is serializable beside a command exactly when the command changes at most one of
      the three parts that Status reads. */
  lemma StatusSerializableIff(cmd: Cmd, s0: Shared)
    ensures StatusSerializable(cmd, s0) <==> AtMostOneDiffers(s0, Exec(cmd, s0).0)
  {
    if AtMostOneDiffers(s0, Exec(cmd, s0).0) {
      forall run: seq<Machine> |
        IsRun(run) && run[0] == Init([STATUS_PROGRAM, Program(cmd)], s0) && Finished(run[|run| - 1])
        ensures |run[|run| - 1].threads| == 2 && SerialFor(cmd, s0, run[|run| - 1].threads[0].local)
      {
        OneDiffersSerial(cmd, s0, run);
      }
    } else {
      var run := TornRun(cmd, s0);
      FocusOrApps(cmd, s0);
      SerialForMeaning(cmd, s0, run[|run| - 1].threads[0].local);
    }
  }

  /** Something is added to the map exactly when one of the domains is in it or it has room. */
  lemma {:induction false} SomeAddedIff(b: set<Key>, ds: seq<Name>)
    ensures AddAll(Start(b), ds).added != [] <==> exists d :: d in ds && (|b| < MAX_ENTRIES || KeyOf(d) in b)
    decreases |ds|
  {
    if ds != [] {
      var one := AddOne(Start(b), ds[0]);
      AddAllAppends(one.blocklist, one.added, one.errors, ds[1..]);
      if InsertKey(b, KeyOf(ds[0])).None? {
        SomeAddedIff(b, ds[1..]);
        assert forall d :: d in ds <==> d == ds[0] || d in ds[1..];
      }
    }
  }

  /** The commands that can tear what Status reads, and the states in which they do. */
  ghost predicate Tears(cmd: Cmd, s: Shared) {
    match cmd
    case FocusMode(false, _) => s.focus && s.dynamicBlocked != []
    case FocusMode(true, ds) =>
      !s.focus && exists d :: d in ds && (|s.blocklist| < MAX_ENTRIES || KeyOf(d) in s.blocklist)
    case Sync(ds, ns) =>
      && AddAll(Start(s.blocklist - KeysOf(Names(s.dynamicBlocked))), ds).added != s.dynamicBlocked
      && (ExactNames(ns) != s.apps.names || PatternNames(ns) != s.apps.patterns)
    case _ => false
  }

  lemma StatusTornIff(cmd: Cmd, s0: Shared)
    ensures StatusSerializable(cmd, s0) <==> !Tears(cmd, s0)
  {
    StatusSerializableIff(cmd, s0);
    match cmd
    case FocusMode(true, ds) => FocusOnChanges(ds, s0);
    case Sync(ds, ns) => SyncChanges(ds, ns, s0);
    case _ =>
  }

  lemma FocusOnChanges(ds: seq<Name>, s: Shared)
    ensures Exec(FocusMode(true, ds), s).0.dynamicBlocked != s.dynamicBlocked <==>
            exists d :: d in ds && (|s.blocklist| < MAX_ENTRIES || KeyOf(d) in s.blocklist)
  {
    SomeAddedIff(s.blocklist, ds);
    var added := AddAll(Start(s.blocklist), ds).added;
    assert |s.dynamicBlocked + added| == |s.dynamicBlocked| + |added|;
    assert added == [] ==> s.dynamicBlocked + added == s.dynamicBlocked;
  }

  lemma SyncChanges(ds: seq<Name>, ns: seq<string>, s: Shared)
    ensures Exec(Sync(ds, ns), s).0.focus == s.focus
    ensures Exec(Sync(ds, ns), s).0.dynamicBlocked != s.dynamicBlocked <==>
            AddAll(Start(s.blocklist - KeysOf(Names(s.dynamicBlocked))), ds).added != s.dynamicBlocked
    ensures Exec(Sync(ds, ns), s).0.apps != s.apps <==>
            ExactNames(ns) != s.apps.names || PatternNames(ns) != s.apps.patterns
  {
    RemoveAllMeaning(Start(s.blocklist), s.dynamicBlocked);
    InsertNamesMeaning(s.apps.(names := {}, patterns := {}), ns);
    assert {} + ExactNames(ns) == ExactNames(ns) && {} + PatternNames(ns) == PatternNames(ns);
  }
}

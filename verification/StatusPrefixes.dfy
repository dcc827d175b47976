/** Status beside any number of commands: each of its reads sees its part as some of the
    commands leave it, in the one order that explains the whole run. */
module StatusPrefixes {
  import opened ControlState
  import opened LockMachine
  import opened Serializability
  import opened ControlPrograms
  import opened StatusReads

  /** The machine without its first thread. */
  ghost function Others(m: Machine): Machine
    requires m.threads != []
  {
    Machine(m.shared, m.threads[1..])
  }

  /** The list is read before the flag, and the flag before the applications. */
  predicate ReadsInOrder(p: Prog) {
    match p
    case Done => true
    case Acq(_, next) => ReadsInOrder(next)
    case Rel(_, next) => ReadsInOrder(next)
    case Act(a, next) =>
      && (a == ReadDyn ==> WillDo(next, ReadFocus) && WillDo(next, ReadApps))
      && (a == ReadFocus ==> WillDo(next, ReadApps))
      && ReadsInOrder(next)
    case Fork(_, _) => false
  }

  /** How many commands of the order each read has behind it. */
  datatype Seen = Seen(dyn: nat, focus: nat, apps: nat)

  predicate Within(order: seq<nat>, n: nat) {
    forall k :: 0 <= k < |order| ==> order[k] < n
  }

  /** The state after the first k programs of the order. */
  ghost function StateAfter(progs: seq<Prog>, order: seq<nat>, k: nat, s0: Shared): Shared
    requires Within(order, |progs|) && k <= |order|
  {
    RunInOrder(progs, order[..k], s0).0
  }

  /** What has been read is its part after that many programs of the order. */
  ghost predicate ReadsPrefixes(p: Prog, loc: Local, progs: seq<Prog>, order: seq<nat>, s0: Shared, at: Seen)
    requires Within(order, |progs|)
  {
    && loc.added == [] && loc.errors == []
    && at.dyn <= at.focus <= at.apps <= |order|
    && (WillDo(p, ReadDyn) || loc.dyn == StateAfter(progs, order, at.dyn, s0).dynamicBlocked)
    && (WillDo(p, ReadFocus) || loc.focus == StateAfter(progs, order, at.focus, s0).focus)
    && (WillDo(p, ReadApps) || loc.apps == StateAfter(progs, order, at.apps, s0).apps)
  }

  ghost predicate ReaderInv(progs: seq<Prog>, m: Machine, h: History, s0: Shared, at: Seen) {
    && m.threads != []
    && Inv(progs, Others(m), h, s0)
    && (forall j :: 1 <= j < |m.threads| ==> m.threads[0].held !! m.threads[j].held)
    && Guarded(m.threads[0].rest, m.threads[0].held) && ReadsInOrder(m.threads[0].rest)
    && ReadsPrefixes(m.threads[0].rest, m.threads[0].local, progs, h.order, s0, at)
  }

  // ----- A step of the reader

  /** What the reader holds is settled among the others. */
  lemma HeldIsSettled(progs: seq<Prog>, m: Machine, h: History, s0: Shared, l: Lock)
    requires m.threads != [] && Inv(progs, Others(m), h, s0) && l in m.threads[0].held
    requires forall j :: 1 <= j < |m.threads| ==> m.threads[0].held !! m.threads[j].held
    ensures SameAt(l, m.shared, h.spec)
  {
    forall j | 0 <= j < |Others(m).threads|
      ensures l !in Others(m).threads[j].held
    {
      assert Others(m).threads[j] == m.threads[j + 1];
    }
    assert Free(Others(m).threads, l);
  }

  lemma ReadsSettled(a: Action, next: Prog, loc: Local, s: Shared, progs: seq<Prog>, h: History, s0: Shared, at: Seen)
    returns (at': Seen)
    requires ReadOnly(a) && ReadsInOrder(Act(a, next)) && Serial(progs, h, s0)
    requires ReadsPrefixes(Act(a, next), loc, progs, h.order, s0, at)
    requires forall l :: l in Footprint(a) ==> SameAt(l, s, h.spec)
    ensures Do(a, loc, s).1 == s
    ensures ReadsPrefixes(next, Do(a, loc, s).0, progs, h.order, s0, at')
  {
    var n := |h.order|;
    assert StateAfter(progs, h.order, n, s0) == h.spec by {
      assert h.order[..n] == h.order;
    }
    match a
    case ReadDyn =>
      assert DynLock in Footprint(a);
      at' := Seen(n, n, n);
    case ReadFocus =>
      assert FocusLock in Footprint(a);
      at' := Seen(at.dyn, n, n);
    case ReadApps =>
      assert AppsLock in Footprint(a);
      at' := Seen(at.dyn, at.focus, n);
    case Work => at' := at;
  }

  lemma ReaderSteps(progs: seq<Prog>, m: Machine, m': Machine, h: History, s0: Shared, at: Seen) returns (at': Seen)
    requires ReaderInv(progs, m, h, s0, at) && StepOf(m, 0, m')
    ensures ReaderInv(progs, m', h, s0, at')
  {
    var r := m.threads[0];
    assert m'.threads[1..] == m.threads[1..];
    at' := at;
    match r.rest
    case Acq(l, next) =>
    case Rel(l, next) =>
    case Act(a, next) =>
      forall l | l in Footprint(a)
        ensures SameAt(l, m.shared, h.spec)
      {
        HeldIsSettled(progs, m, h, s0, l);
      }
      at' := ReadsSettled(a, next, r.local, m.shared, progs, h, s0, at);
  }

  // ----- A step of another thread

  lemma OtherStep(m: Machine, i: nat, m': Machine)
    requires 1 <= i < |m.threads| && StepOf(m, i, m')
    ensures m'.threads != [] && m'.threads[0] == m.threads[0] && |m'.threads| == |m.threads|
    ensures Next(Others(m), Others(m'))
    ensures (forall j :: 1 <= j < |m.threads| ==> m.threads[0].held !! m.threads[j].held) ==>
              forall j :: 1 <= j < |m'.threads| ==> m'.threads[0].held !! m'.threads[j].held
  {
    var t, t' := m.threads[i], m'.threads[i];
    assert Others(m).threads[i - 1] == t;
    assert m.threads[i := t'][1..] == m.threads[1..][i - 1 := t'];
    if t.rest.Acq? {
      FreeAmongOthers(m, t.rest.lock);
    }
    assert StepOf(Others(m), i - 1, Others(m'));
  }

  lemma FreeAmongOthers(m: Machine, l: Lock)
    requires m.threads != [] && Free(m.threads, l)
    ensures Free(Others(m).threads, l)
  {
    forall j | 0 <= j < |Others(m).threads|
      ensures l !in Others(m).threads[j].held
    {
      assert Others(m).threads[j] == m.threads[j + 1];
    }
  }

  lemma LongerOrder(p: Prog, loc: Local, progs: seq<Prog>, order: seq<nat>, order': seq<nat>, s0: Shared, at: Seen)
    requires Within(order', |progs|) && order <= order' && Within(order, |progs|)
    requires ReadsPrefixes(p, loc, progs, order, s0, at)
    ensures ReadsPrefixes(p, loc, progs, order', s0, at)
  {
    assert order'[..at.dyn] == order[..at.dyn];
    assert order'[..at.focus] == order[..at.focus];
    assert order'[..at.apps] == order[..at.apps];
  }

  lemma OthersStep(progs: seq<Prog>, m: Machine, i: nat, m': Machine, h: History, s0: Shared, at: Seen) returns (h': History)
    requires ReaderInv(progs, m, h, s0, at) && 1 <= i < |m.threads| && StepOf(m, i, m')
    ensures ReaderInv(progs, m', h', s0, at)
  {
    OtherStep(m, i, m');
    h' := StepKeepsInv(progs, Others(m), Others(m'), h, s0);
    LongerOrder(m.threads[0].rest, m.threads[0].local, progs, h.order, h'.order, s0, at);
  }

  // ----- Runs

  lemma ReaderStarts(cmds: seq<Cmd>, s0: Shared)
    ensures ReaderInv(Programs(cmds), Init([STATUS_PROGRAM] + Programs(cmds), s0), History([], s0, map[]), s0, Seen(0, 0, 0))
  {
    var progs := Programs(cmds);
    var m := Init([STATUS_PROGRAM] + progs, s0);
    assert Others(m).threads == Init(progs, s0).threads;
    CommandsTwoPhase(cmds);
    InitInv(progs, s0);
    StatusGuarded();
    StatusReadsInOrder();
  }

  lemma StatusReadsInOrder()
    ensures ReadsInOrder(STATUS_PROGRAM)
  {
    StatusGuarded();
    AfterListBalanced();
    var apps := Acq(AppsLock, Act(ReadApps, Acq(FreezerLock, Act(Work, Rel(FreezerLock, END_APPS)))));
    assert ReadsInOrder(Rel(FreezerLock, END_APPS));
    assert ReadsInOrder(Acq(FreezerLock, Act(Work, Rel(FreezerLock, END_APPS))));
    assert WillDo(apps, ReadApps) && ReadsInOrder(apps);
    assert WillDo(Rel(FocusLock, apps), ReadApps) && ReadsInOrder(Rel(FocusLock, apps));
    assert ReadsInOrder(Act(ReadFocus, Rel(FocusLock, apps)));
    assert WillDo(AFTER_LIST, ReadFocus) && WillDo(AFTER_LIST, ReadApps) && ReadsInOrder(AFTER_LIST);
    assert ReadsInOrder(Act(ReadDyn, Rel(DynLock, AFTER_LIST)));
  }

  lemma AnyStep(progs: seq<Prog>, m: Machine, m': Machine, h: History, s0: Shared, at: Seen) returns (h': History, at': Seen)
    requires ReaderInv(progs, m, h, s0, at) && Next(m, m')
    ensures ReaderInv(progs, m', h', s0, at')
  {
    h', at' := h, at;
    var i: nat :| i < |m.threads| && StepOf(m, i, m');
    if i == 0 {
      at' := ReaderSteps(progs, m, m', h, s0, at);
    } else {
      h' := OthersStep(progs, m, i, m', h, s0, at);
    }
  }

  lemma {:induction false} RunKeepsReads(cmds: seq<Cmd>, run: seq<Machine>, s0: Shared, n: nat) returns (h: History, at: Seen)
    requires IsRun(run) && run[0] == Init([STATUS_PROGRAM] + Programs(cmds), s0) && n < |run|
    ensures ReaderInv(Programs(cmds), run[n], h, s0, at)
  {
    if n == 0 {
      h, at := History([], s0, map[]), Seen(0, 0, 0);
      ReaderStarts(cmds, s0);
    } else {
      h, at := RunKeepsReads(cmds, run, s0, n - 1);
      assert Next(run[n - 1], run[n - 1 + 1]);
      h, at := AnyStep(Programs(cmds), run[n - 1], run[n], h, s0, at);
    }
  }

  /** The list, the flag and the applications after some, no fewer and no fewer of the commands
      in this order. */
  ghost predicate ArePrefixes(cmds: seq<Cmd>, order: seq<nat>, at: Seen, s0: Shared, list: seq<Name>, flag: bool, apps: Apps) {
    && IsOrderOf(order, |cmds|) && at.dyn <= at.focus <= at.apps <= |order|
    && list == ExecInOrder(cmds, order[..at.dyn], s0).0.dynamicBlocked
    && flag == ExecInOrder(cmds, order[..at.focus], s0).0.focus
    && apps == ExecInOrder(cmds, order[..at.apps], s0).0.apps
  }

  /** Whatever commands run beside Status: one order of them explains the run, and Status reports
      what prefixes of that order leave, its later reads never less of it. */
  lemma StatusSeesPrefixes(cmds: seq<Cmd>, run: seq<Machine>, s0: Shared) returns (order: seq<nat>, at: Seen)
    requires IsRun(run) && run[0] == Init([STATUS_PROGRAM] + Programs(cmds), s0) && Finished(run[|run| - 1])
    ensures IsOrderOf(order, |cmds|)
    ensures var last := run[|run| - 1];
            var (shared, answers) := ExecInOrder(cmds, order, s0);
            && last.shared == shared
            && |last.threads| == |cmds| + 1
            && forall i :: 0 <= i < |cmds| ==> i in answers && answers[i] == Reply(last.threads[i + 1].local.errors)
    ensures var loc := run[|run| - 1].threads[0].local;
            ArePrefixes(cmds, order, at, s0, loc.dyn, loc.focus, loc.apps) && loc.added == [] && loc.errors == []
  {
    var progs, last := Programs(cmds), run[|run| - 1];
    var h: History;
    h, at := RunKeepsReads(cmds, run, s0, |run| - 1);
    order := h.order;
    forall i | 0 <= i < |Others(last).threads|
      ensures Others(last).threads[i] == last.threads[i + 1]
    {
    }
    FinishedInOrder(progs, Others(last), h, s0);
    assert last.threads[0].rest == Done;
    OrderMeaning(cmds, order, s0);
    OrderMeaning(cmds, order[..at.dyn], s0);
    OrderMeaning(cmds, order[..at.focus], s0);
    OrderMeaning(cmds, order[..at.apps], s0);
  }

  // ----- Every such report can be had

  ghost predicate Reaches(m: Machine, m': Machine) {
    exists run :: Leads(run, m, m')
  }

  lemma ReachesOn(m: Machine, m1: Machine, m': Machine)
    requires Reaches(m, m1) && Reaches(m1, m')
    ensures Reaches(m, m')
  {
    var a :| Leads(a, m, m1);
    var b :| Leads(b, m1, m');
    Join(a, b, m, m1, m');
    assert Leads(a + b[1..], m, m');
  }

  /** The programs before they run, or, those of the order, after it. */
  ghost function Threads(progs: seq<Prog>, order: seq<nat>, s0: Shared): (ts: seq<Thread>)
    requires Within(order, |progs|)
    ensures |ts| == |progs| && forall i :: 0 <= i < |ts| ==> ts[i].held == {}
  {
    var locals := RunInOrder(progs, order, s0).1;
    seq(|progs|, i requires 0 <= i < |progs| =>
      if i in locals then Thread(Done, {}, locals[i]) else Thread(progs[i], {}, FRESH))
  }

  /** A reader beside the programs, of which those of the order have run. */
  ghost function Between(reader: Thread, progs: seq<Prog>, order: seq<nat>, s0: Shared): (m: Machine)
    requires Within(order, |progs|)
    ensures |m.threads| == |progs| + 1 && m.threads[0] == reader
  {
    Machine(RunInOrder(progs, order, s0).0, [reader] + Threads(progs, order, s0))
  }

  lemma {:induction false} LocalsOf(progs: seq<Prog>, order: seq<nat>, s0: Shared)
    requires Within(order, |progs|)
    ensures forall i :: i in RunInOrder(progs, order, s0).1 <==> i in order
    decreases |order|
  {
    if order != [] {
      LocalsOf(progs, order[..|order| - 1], s0);
    }
  }

  lemma OrderedNext(progs: seq<Prog>, order: seq<nat>, order': seq<nat>, i: nat, s0: Shared)
    requires i < |progs| && i !in order && order' == order + [i] && Within(order, |progs|) && Within(order', |progs|)
    ensures Threads(progs, order, s0)[i] == Thread(progs[i], {}, FRESH)
    ensures var (loc, s) := Run(progs[i], FRESH, RunInOrder(progs, order, s0).0);
            && RunInOrder(progs, order', s0).0 == s
            && Threads(progs, order', s0) == Threads(progs, order, s0)[i := Thread(Done, {}, loc)]
  {
    LocalsOf(progs, order, s0);
    assert order'[..|order|] == order;
  }

  /** One more of the programs runs to its end. */
  lemma OneMore(reader: Thread, progs: seq<Prog>, order: seq<nat>, order': seq<nat>, i: nat, s0: Shared)
    requires reader.held == {} && forall p <- progs :: Balanced(p, {})
    requires i < |progs| && i !in order && order' == order + [i] && Within(order, |progs|) && Within(order', |progs|)
    ensures Reaches(Between(reader, progs, order, s0), Between(reader, progs, order', s0))
  {
    OrderedNext(progs, order, order', i, s0);
    OneRuns(reader, Threads(progs, order, s0), i, RunInOrder(progs, order, s0).0);
  }

  lemma OneRuns(reader: Thread, ts: seq<Thread>, i: nat, s: Shared)
    requires reader.held == {} && forall j :: 0 <= j < |ts| ==> ts[j].held == {}
    requires i < |ts| && Balanced(ts[i].rest, {})
    ensures var (loc, s') := Run(ts[i].rest, ts[i].local, s);
            Reaches(Machine(s, [reader] + ts), Machine(s', [reader] + ts[i := Thread(Done, {}, loc)]))
  {
    var m := Machine(s, [reader] + ts);
    var run := RunAlone(m, i + 1);
    var (loc, s') := Run(ts[i].rest, ts[i].local, s);
    assert [reader] + ts[i := Thread(Done, {}, loc)] == m.threads[i + 1 := Thread(Done, {}, loc)];
    assert Leads(run, m, Machine(s', [reader] + ts[i := Thread(Done, {}, loc)]));
  }

  /** So do some more of an order. */
  lemma {:induction false} SomeMore(reader: Thread, progs: seq<Prog>, order: seq<nat>, j: nat, k: nat, s0: Shared)
    requires reader.held == {} && forall p <- progs :: Balanced(p, {})
    requires IsOrderOf(order, |progs|) && j <= k <= |order|
    ensures Reaches(Between(reader, progs, order[..j], s0), Between(reader, progs, order[..k], s0))
    decreases k - j
  {
    var m := Between(reader, progs, order[..j], s0);
    if j == k {
      assert Leads([m], m, m);
    } else {
      OneMore(reader, progs, order[..j], order[..j + 1], order[j], s0);
      SomeMore(reader, progs, order, j + 1, k, s0);
      ReachesOn(m, Between(reader, progs, order[..j + 1], s0), Between(reader, progs, order[..k], s0));
    }
  }

  /** The reader takes a lock for one read. */
  lemma ReaderReads(reader: Thread, reader': Thread, l: Lock, a: Action, progs: seq<Prog>, order: seq<nat>, s0: Shared)
    requires Within(order, |progs|) && ReadOnly(a) && reader.held == {} == reader'.held
    requires reader.rest == Acq(l, Act(a, Rel(l, reader'.rest)))
    requires reader'.local == Do(a, reader.local, RunInOrder(progs, order, s0).0).0
    ensures Reaches(Between(reader, progs, order, s0), Between(reader', progs, order, s0))
  {
    var m, m' := Between(reader, progs, order, s0), Between(reader', progs, order, s0);
    assert Do(a, reader.local, m.shared).1 == m.shared;
    assert m'.threads == m.threads[0 := reader'];
    forall j | 0 <= j < |m.threads|
      ensures m.threads[j].held == {}
    {
    }
    var run := LockedAction(m, l, a, reader'.rest, m');
  }

  /** Some more of an order run, and then the reader reads. */
  lemma ReadLater(reader: Thread, reader': Thread, l: Lock, a: Action, progs: seq<Prog>, order: seq<nat>, j: nat, k: nat,
                  s0: Shared)
    requires (forall p <- progs :: Balanced(p, {})) && IsOrderOf(order, |progs|) && j <= k <= |order|
    requires ReadOnly(a) && reader.held == {} == reader'.held
    requires reader.rest == Acq(l, Act(a, Rel(l, reader'.rest)))
    requires reader'.local == Do(a, reader.local, RunInOrder(progs, order[..k], s0).0).0
    ensures Reaches(Between(reader, progs, order[..j], s0), Between(reader', progs, order[..k], s0))
  {
    SomeMore(reader, progs, order, j, k, s0);
    ReaderReads(reader, reader', l, a, progs, order[..k], s0);
    ReachesOn(Between(reader, progs, order[..j], s0), Between(reader, progs, order[..k], s0),
              Between(reader', progs, order[..k], s0));
  }

  const AFTER_FLAG: Prog :=
    Acq(AppsLock, Act(ReadApps, Acq(FreezerLock, Act(Work, Rel(FreezerLock, END_APPS)))))

  /** The reader reads the applications and ends. */
  lemma ReaderEnds(reader: Thread, reader': Thread, progs: seq<Prog>, order: seq<nat>, s0: Shared)
    requires Within(order, |progs|) && reader.held == {} && reader.rest == AFTER_FLAG
    requires reader' == Thread(Done, {}, reader.local.(apps := RunInOrder(progs, order, s0).0.apps))
    ensures Reaches(Between(reader, progs, order, s0), Between(reader', progs, order, s0))
  {
    var m, m' := Between(reader, progs, order, s0), Between(reader', progs, order, s0);
    AfterFlag(reader.local, m.shared);
    var run := RunAlone(m, 0);
    assert m'.threads == m.threads[0 := reader'];
    assert Leads(run, m, m');
  }

  /** Some more of an order run, then the reader ends, and then the others run. */
  lemma EndLater(reader: Thread, reader': Thread, progs: seq<Prog>, order: seq<nat>, j: nat, k: nat, s0: Shared)
    requires (forall p <- progs :: Balanced(p, {})) && IsOrderOf(order, |progs|) && j <= k <= |order|
    requires reader.held == {} && reader.rest == AFTER_FLAG
    requires reader' == Thread(Done, {}, reader.local.(apps := RunInOrder(progs, order[..k], s0).0.apps))
    ensures Reaches(Between(reader, progs, order[..j], s0), Between(reader', progs, order, s0))
  {
    var m := Between(reader, progs, order[..j], s0);
    SomeMore(reader, progs, order, j, k, s0);
    ReaderEnds(reader, reader', progs, order[..k], s0);
    ReachesOn(m, Between(reader, progs, order[..k], s0), Between(reader', progs, order[..k], s0));
    SomeMore(reader', progs, order, k, |order|, s0);
    assert order[..|order|] == order;
    ReachesOn(m, Between(reader', progs, order[..k], s0), Between(reader', progs, order, s0));
  }

  lemma AfterFlag(loc: Local, s: Shared)
    ensures Balanced(AFTER_FLAG, {}) && Run(AFTER_FLAG, loc, s) == (loc.(apps := s.apps), s)
    ensures AFTER_LIST == Acq(FocusLock, Act(ReadFocus, Rel(FocusLock, AFTER_FLAG)))
  {
    AfterListBalanced();
    assert ({} + {FocusLock}) - {FocusLock} == {};
    assert Balanced(Rel(FocusLock, AFTER_FLAG), {} + {FocusLock});
    assert Balanced(Act(ReadFocus, Rel(FocusLock, AFTER_FLAG)), {} + {FocusLock});
    RunEnds(loc.(apps := s.apps), s);
    var tail := Acq(FreezerLock, Act(Work, Rel(FreezerLock, END_APPS)));
    assert Run(Act(Work, Rel(FreezerLock, END_APPS)), loc.(apps := s.apps), s) == (loc.(apps := s.apps), s);
    assert Run(tail, loc.(apps := s.apps), s) == (loc.(apps := s.apps), s);
  }

  /** A reader that takes two locks in turn and then ends, between any parts of an order. */
  lemma ReaderRuns(r0: Thread, r1: Thread, r2: Thread, r3: Thread, progs: seq<Prog>, order: seq<nat>, s0: Shared, at: Seen)
    requires (forall p <- progs :: Balanced(p, {})) && IsOrderOf(order, |progs|)
    requires at.dyn <= at.focus <= at.apps <= |order|
    requires r0.held == {} == r1.held && r2.held == {}
    requires r0.rest == Acq(DynLock, Act(ReadDyn, Rel(DynLock, r1.rest)))
    requires r1.rest == Acq(FocusLock, Act(ReadFocus, Rel(FocusLock, r2.rest))) && r2.rest == AFTER_FLAG
    requires r1.local == r0.local.(dyn := RunInOrder(progs, order[..at.dyn], s0).0.dynamicBlocked)
    requires r2.local == r1.local.(focus := RunInOrder(progs, order[..at.focus], s0).0.focus)
    requires r3 == Thread(Done, {}, r2.local.(apps := RunInOrder(progs, order[..at.apps], s0).0.apps))
    ensures Reaches(Between(r0, progs, order[..0], s0), Between(r3, progs, order, s0))
  {
    ReadLater(r0, r1, DynLock, ReadDyn, progs, order, 0, at.dyn, s0);
    ReadLater(r1, r2, FocusLock, ReadFocus, progs, order, at.dyn, at.focus, s0);
    EndLater(r2, r3, progs, order, at.focus, at.apps, s0);
    var m0, m3 := Between(r0, progs, order[..0], s0), Between(r3, progs, order, s0);
    ReachesOn(m0, Between(r1, progs, order[..at.dyn], s0), Between(r2, progs, order[..at.focus], s0));
    ReachesOn(m0, Between(r2, progs, order[..at.focus], s0), m3);
  }

  lemma StatusRuns(progs: seq<Prog>, order: seq<nat>, s0: Shared, at: Seen, loc: Local)
    requires (forall p <- progs :: Balanced(p, {})) && IsOrderOf(order, |progs|)
    requires at.dyn <= at.focus <= at.apps <= |order|
    requires loc == FRESH.(dyn := RunInOrder(progs, order[..at.dyn], s0).0.dynamicBlocked,
                           focus := RunInOrder(progs, order[..at.focus], s0).0.focus,
                           apps := RunInOrder(progs, order[..at.apps], s0).0.apps)
    ensures Reaches(Between(Thread(STATUS_PROGRAM, {}, FRESH), progs, order[..0], s0),
                    Between(Thread(Done, {}, loc), progs, order, s0))
  {
    var r1 := Thread(AFTER_LIST, {}, FRESH.(dyn := loc.dyn));
    var r2 := Thread(AFTER_FLAG, {}, r1.local.(focus := loc.focus));
    AfterListBalanced();
    AfterFlag(r2.local, s0);
    ReaderRuns(Thread(STATUS_PROGRAM, {}, FRESH), r1, r2, Thread(Done, {}, loc), progs, order, s0, at);
  }

  /** Some finished run of Status beside the commands leaves it this list, flag and
      applications. */
  ghost predicate CanReport(cmds: seq<Cmd>, s0: Shared, list: seq<Name>, flag: bool, apps: Apps) {
    exists run: seq<Machine> ::
      && IsRun(run) && run[0] == Init([STATUS_PROGRAM] + Programs(cmds), s0) && Finished(run[|run| - 1])
      && run[|run| - 1].threads != []
      && run[|run| - 1].threads[0].local == FRESH.(dyn := list, focus := flag, apps := apps)
  }

  lemma PrefixesReported(cmds: seq<Cmd>, order: seq<nat>, at: Seen, s0: Shared, list: seq<Name>, flag: bool, apps: Apps)
    requires ArePrefixes(cmds, order, at, s0, list, flag, apps)
    ensures CanReport(cmds, s0, list, flag, apps)
  {
    var progs := Programs(cmds);
    CommandsBalanced(cmds);
    OrderMeaning(cmds, order[..at.dyn], s0);
    OrderMeaning(cmds, order[..at.focus], s0);
    OrderMeaning(cmds, order[..at.apps], s0);
    var loc := FRESH.(dyn := list, focus := flag, apps := apps);
    StatusRuns(progs, order, s0, at, loc);
    StartsFresh(STATUS_PROGRAM, progs, order[..0], s0);
    EndsFinished(loc, progs, order, s0);
  }

  lemma StartsFresh(p: Prog, progs: seq<Prog>, order: seq<nat>, s0: Shared)
    requires order == []
    ensures Between(Thread(p, {}, FRESH), progs, order, s0) == Init([p] + progs, s0)
  {
    assert Between(Thread(p, {}, FRESH), progs, order, s0).threads == Init([p] + progs, s0).threads;
  }

  lemma EndsFinished(loc: Local, progs: seq<Prog>, order: seq<nat>, s0: Shared)
    requires IsOrderOf(order, |progs|)
    ensures Finished(Between(Thread(Done, {}, loc), progs, order, s0))
  {
    LocalsOf(progs, order, s0);
  }

  lemma CommandsBalanced(cmds: seq<Cmd>)
    ensures forall p <- Programs(cmds) :: Balanced(p, {})
  {
    CommandsTwoPhase(cmds);
    forall p | p in Programs(cmds)
      ensures Balanced(p, {})
    {
      TwoPhaseBalanced(p, {});
    }
  }

  /** What Status can report beside the commands: exactly what prefixes of one order of them leave. */
  lemma StatusReportsIff(cmds: seq<Cmd>, s0: Shared, list: seq<Name>, flag: bool, apps: Apps)
    ensures CanReport(cmds, s0, list, flag, apps) <==>
            exists order, at :: ArePrefixes(cmds, order, at, s0, list, flag, apps)
  {
    if CanReport(cmds, s0, list, flag, apps) {
      var run: seq<Machine> :|
        && IsRun(run) && run[0] == Init([STATUS_PROGRAM] + Programs(cmds), s0) && Finished(run[|run| - 1])
        && run[|run| - 1].threads != []
        && run[|run| - 1].threads[0].local == FRESH.(dyn := list, focus := flag, apps := apps);
      var order, at := StatusSeesPrefixes(cmds, run, s0);
    }
    forall order, at | ArePrefixes(cmds, order, at, s0, list, flag, apps)
      ensures CanReport(cmds, s0, list, flag, apps)
    {
      PrefixesReported(cmds, order, at, s0, list, flag, apps);
    }
  }
}

/** What freeze and thaw calls do: each of them run alone, runs of freezes only, and what stays
    stopped beside thaws. */
module FreezerRuns {
  import opened ProcessTree
  import opened Freezer
  import opened FreezerProtocol

  // ----- A call run alone

  /** A run in which only call i steps. */
  ghost predicate IsSolo(t: Table, run: seq<System>, i: nat) {
    && run != []
    && forall k :: 0 <= k < |run| - 1 ==> i < |run[k].calls| && StepOf(t, run[k], i, run[k + 1])
  }

  ghost predicate OthersSame(s: System, s0: System, i: nat)
    requires i < |s0.calls|
  {
    && |s.calls| == |s0.calls| && s.calls[i].name == s0.calls[i].name
    && forall j :: 0 <= j < |s.calls| && j != i ==> s.calls[j] == s0.calls[j]
  }

  /** What freezing the name leaves: nothing new if it is frozen or has no processes; otherwise its
      targets are stopped and recorded. */
  ghost predicate Frozen(t: Table, s0: System, name: Name, s: System) {
    if name in s0.frozen || PidsOf(t, name) == [] then s.frozen == s0.frozen && s.stopped == s0.stopped
    else
      exists targets: set<Pid> ::
        AreTargets(t, name, targets) && s.frozen == s0.frozen[name := targets] && s.stopped == s0.stopped + targets
  }

  /** A freeze on its own from s0, in any of its phases. */
  ghost predicate FreezeAlone(t: Table, s0: System, name: Name, phase: Phase, s: System) {
    match phase
    case Check => s.frozen == s0.frozen && s.stopped == s0.stopped
    case Scan => s.frozen == s0.frozen && s.stopped == s0.stopped && name !in s0.frozen
    case Stopping(todo, collected) =>
      && name !in s0.frozen && PidsOf(t, name) != []
      && s.frozen == s0.frozen && s.stopped == s0.stopped + collected
      && forall p :: p in collected || (p in todo && p in t.alive) <==> IsTarget(t, name, p)
    case Returned => Frozen(t, s0, name, s)
    case _ => false
  }

  lemma FreezeStep(t: Table, s0: System, s: System, i: nat, s': System)
    requires i < |s0.calls| && OthersSame(s, s0, i) && StepOf(t, s, i, s')
    requires FreezeAlone(t, s0, s0.calls[i].name, s.calls[i].phase, s)
    ensures OthersSame(s', s0, i) && FreezeAlone(t, s0, s0.calls[i].name, s'.calls[i].phase, s')
  {
    var name := s0.calls[i].name;
    match s.calls[i].phase
    case Check =>
    case Scan =>
    case Stopping(todo, collected) =>
      if todo == [] {
        assert AreTargets(t, name, collected);
      } else {
        StopOne(t, name, todo, todo[1..], collected, todo[0]);
      }
    case Returned =>
  }

  /** One more pid is looked at. */
  lemma StopOne(t: Table, name: Name, todo: seq<Pid>, rest: seq<Pid>, collected: set<Pid>, p: Pid)
    requires todo == [p] + rest
    requires forall q :: q in collected || (q in todo && q in t.alive) <==> IsTarget(t, name, q)
    ensures var more := if p in t.alive then collected + {p} else collected;
            forall q :: q in more || (q in rest && q in t.alive) <==> IsTarget(t, name, q)
  {
    assert forall q :: q in todo <==> q == p || q in rest;
  }

  lemma {:induction false} FreezeRunsAlone(t: Table, run: seq<System>, i: nat, n: nat)
    requires IsSolo(t, run, i) && i < |run[0].calls| && run[0].calls[i].phase == Check && n < |run|
    ensures OthersSame(run[n], run[0], i)
    ensures FreezeAlone(t, run[0], run[0].calls[i].name, run[n].calls[i].phase, run[n])
  {
    if n > 0 {
      FreezeRunsAlone(t, run, i, n - 1);
      assert StepOf(t, run[n - 1], i, run[n - 1 + 1]);
      FreezeStep(t, run[0], run[n - 1], i, run[n]);
    }
  }

  /** A thaw on its own from s0, in any of its phases. */
  ghost predicate ThawAlone(t: Table, s0: System, name: Name, phase: Phase, s: System) {
    match phase
    case Take => s.frozen == s0.frozen && s.stopped == s0.stopped
    case Resuming(pids, pending) =>
      && name in s0.frozen && pids == s0.frozen[name] && pending <= pids
      && s.frozen == s0.frozen - {name} && s.stopped == s0.stopped - ((pids - pending) * t.alive)
    case Extra(pids, later) =>
      && name in s0.frozen && pids == s0.frozen[name] && s.frozen == s0.frozen - {name}
      && exists done ::
           PidsOf(t, name) == done + later
           && s.stopped == s0.stopped - (pids * t.alive) - (PidSet(done) * t.alive)
    case Returned => (s.frozen, s.stopped) == Thawed(t, s0.frozen, s0.stopped, name)
    case _ => false
  }

  lemma ThawStep(t: Table, s0: System, s: System, i: nat, s': System)
    requires i < |s0.calls| && OthersSame(s, s0, i) && StepOf(t, s, i, s')
    requires ThawAlone(t, s0, s0.calls[i].name, s.calls[i].phase, s)
    ensures OthersSame(s', s0, i) && ThawAlone(t, s0, s0.calls[i].name, s'.calls[i].phase, s')
  {
    match s.calls[i].phase
    case Take =>
    case Resuming(pids, pending) => ResumeStep(t, s0, s, i, s');
    case Extra(pids, later) => ExtraStep(t, s0, s, i, s');
    case Returned =>
  }

  lemma ResumeStep(t: Table, s0: System, s: System, i: nat, s': System)
    requires i < |s0.calls| && OthersSame(s, s0, i) && StepOf(t, s, i, s') && s.calls[i].phase.Resuming?
    requires ThawAlone(t, s0, s0.calls[i].name, s.calls[i].phase, s)
    ensures OthersSame(s', s0, i) && ThawAlone(t, s0, s0.calls[i].name, s'.calls[i].phase, s')
  {
    var pids, pending := s.calls[i].phase.pids, s.calls[i].phase.pending;
    if pending == {} {
      assert pids - pending == pids;
      assert PidsOf(t, s0.calls[i].name) == [] + PidsOf(t, s0.calls[i].name);
      assert PidSet([]) * t.alive == {};
    } else {
      var p :| p in pending
        && s' == Advance(s, i, Resuming(pids, pending - {p})).(stopped := s.stopped - ({p} * t.alive));
      assert pids - (pending - {p}) == (pids - pending) + {p};
    }
  }

  lemma ExtraStep(t: Table, s0: System, s: System, i: nat, s': System)
    requires i < |s0.calls| && OthersSame(s, s0, i) && StepOf(t, s, i, s') && s.calls[i].phase.Extra?
    requires ThawAlone(t, s0, s0.calls[i].name, s.calls[i].phase, s)
    ensures OthersSame(s', s0, i) && ThawAlone(t, s0, s0.calls[i].name, s'.calls[i].phase, s')
  {
    var name, pids, later := s0.calls[i].name, s.calls[i].phase.pids, s.calls[i].phase.later;
    var done :| PidsOf(t, name) == done + later
      && s.stopped == s0.stopped - (pids * t.alive) - (PidSet(done) * t.alive);
    if later == [] {
      assert done + later == done;
    } else {
      var more := done + [later[0]];
      assert PidsOf(t, name) == more + later[1..];
      assert PidSet(more) == PidSet(done) + {later[0]};
      assert s'.stopped == s0.stopped - (pids * t.alive) - (PidSet(more) * t.alive);
    }
  }

  lemma {:induction false} ThawRunsAlone(t: Table, run: seq<System>, i: nat, n: nat)
    requires IsSolo(t, run, i) && i < |run[0].calls| && run[0].calls[i].phase == Take && n < |run|
    ensures OthersSame(run[n], run[0], i)
    ensures ThawAlone(t, run[0], run[0].calls[i].name, run[n].calls[i].phase, run[n])
  {
    if n > 0 {
      ThawRunsAlone(t, run, i, n - 1);
      assert StepOf(t, run[n - 1], i, run[n - 1 + 1]);
      ThawStep(t, run[0], run[n - 1], i, run[n]);
    }
  }

  /** A call that runs alone until it returns does what the freezer's methods do: a freeze records
      and stops its targets, a thaw takes the record out and resumes. */
  lemma CallsAlone(t: Table, run: seq<System>, i: nat)
    requires IsSolo(t, run, i) && i < |run[0].calls|
    requires run[0].calls[i].phase == Check || run[0].calls[i].phase == Take
    ensures var last, name := run[|run| - 1], run[0].calls[i].name;
            && OthersSame(last, run[0], i)
            && (last.calls[i].phase == Returned ==>
                  if run[0].calls[i].phase == Check then Frozen(t, run[0], name, last)
                  else (last.frozen, last.stopped) == Thawed(t, run[0].frozen, run[0].stopped, name))
  {
    if run[0].calls[i].phase == Check {
      FreezeRunsAlone(t, run, i, |run| - 1);
    } else {
      ThawRunsAlone(t, run, i, |run| - 1);
    }
  }

  // ----- Every call can run to its end

  ghost function SeqOf(pids: set<Pid>): (s: seq<Pid>)
    ensures forall p :: p in s <==> p in pids
  {
    if pids == {} then []
    else
      HasMember(pids);
      var p :| p in pids;
      [p] + SeqOf(pids - {p})
  }

  /** There is a plan for every name. */
  lemma PlanExists(t: Table, name: Name) returns (todo: seq<Pid>)
    ensures IsPlan(t, name, todo)
  {
    var roots := PidsOf(t, name);
    var all := set i, p | 0 <= i < |roots| && p in AllPids(t.children, roots[i]) :: p;
    var reached := set p | p in all && ReachedFrom(t.children, roots, p);
    forall p | ReachedFrom(t.children, roots, p)
      ensures p in reached
    {
      var i :| 0 <= i < |roots| && Reachable(t.children, roots[i], p);
      ReachableInside(t.children, roots[i], AllPids(t.children, roots[i]));
      assert p in AllPids(t.children, roots[i]);
    }
    todo := SeqOf(reached);
  }

  /** How many phases a call has before it, and how much there is to do in this one. */
  function Rank(phase: Phase): nat {
    match phase
    case Check => 3
    case Scan => 2
    case Stopping(_, _) => 1
    case Take => 3
    case Resuming(_, _) => 2
    case Extra(_, _) => 1
    case Returned => 0
  }

  function Size(phase: Phase): nat {
    match phase
    case Stopping(todo, _) => |todo|
    case Resuming(_, pending) => |pending|
    case Extra(_, later) => |later|
    case _ => 0
  }

  /** A call that has not returned can step towards its end. */
  lemma CallCanStep(t: Table, s: System, i: nat) returns (s': System)
    requires i < |s.calls| && s.calls[i].phase != Returned
    ensures StepOf(t, s, i, s') && |s'.calls| == |s.calls|
    ensures var c, c' := s.calls[i].phase, s'.calls[i].phase;
            Rank(c') < Rank(c) || (Rank(c') == Rank(c) && Size(c') < Size(c))
  {
    var name := s.calls[i].name;
    match s.calls[i].phase {
      case Check => s' := Advance(s, i, if name in s.frozen then Returned else Scan);
      case Scan =>
        if PidsOf(t, name) == [] {
          s' := Advance(s, i, Returned);
        } else {
          var todo := PlanExists(t, name);
          s' := Advance(s, i, Stopping(todo, {}));
        }
      case Stopping(todo, collected) =>
        if todo == [] {
          s' := Advance(s, i, Returned).(frozen := s.frozen[name := collected]);
        } else if todo[0] in t.alive {
          s' := Advance(s, i, Stopping(todo[1..], collected + {todo[0]})).(stopped := s.stopped + {todo[0]});
        } else {
          s' := Advance(s, i, Stopping(todo[1..], collected));
        }
      case Take =>
        if name !in s.frozen {
          s' := Advance(s, i, Returned);
        } else {
          s' := Advance(s, i, Resuming(s.frozen[name], s.frozen[name])).(frozen := s.frozen - {name});
        }
      case Resuming(pids, pending) =>
        if pending == {} {
          s' := Advance(s, i, Extra(pids, PidsOf(t, name)));
        } else {
          HasMember(pending);
          var p :| p in pending;
          s' := Advance(s, i, Resuming(pids, pending - {p})).(stopped := s.stopped - ({p} * t.alive));
        }
      case Extra(pids, later) =>
        if later == [] {
          s' := Advance(s, i, Returned);
        } else if later[0] in pids {
          s' := Advance(s, i, Extra(pids, later[1..]));
        } else {
          s' := Advance(s, i, Extra(pids, later[1..])).(stopped := s.stopped - ({later[0]} * t.alive));
        }
    }
  }

  /** Whatever the others have done, a call that is left alone returns. */
  lemma {:induction false} CallCanReturn(t: Table, s: System, i: nat) returns (run: seq<System>)
    requires i < |s.calls|
    ensures IsSolo(t, run, i) && run[0] == s
    ensures i < |run[|run| - 1].calls| && run[|run| - 1].calls[i].phase == Returned
    decreases Rank(s.calls[i].phase), Size(s.calls[i].phase)
  {
    if s.calls[i].phase == Returned {
      run := [s];
    } else {
      var s' := CallCanStep(t, s, i);
      var rest := CallCanReturn(t, s', i);
      run := [s] + rest;
      forall k | 0 <= k < |run| - 1
        ensures i < |run[k].calls| && StepOf(t, run[k], i, run[k + 1])
      {
        if k > 0 {
          assert StepOf(t, rest[k - 1], i, rest[k - 1 + 1]);
        }
      }
    }
  }

  // ----- What is recorded is stopped, until a thaw resumes it

  /** The step stops the pid on behalf of a freeze of this name. */
  ghost predicate Collects(s: System, s': System, name: Name, p: Pid) {
    |s'.calls| == |s.calls| && exists i :: 0 <= i < |s.calls| && CollectsBy(s.calls[i], s'.calls[i], name, p)
  }

  predicate CollectsBy(c: Call, c': Call, name: Name, p: Pid) {
    && c.name == name && c.phase.Stopping? && c'.phase.Stopping?
    && p !in c.phase.collected && p in c'.phase.collected
  }

  /** The step resumes the pid on behalf of a thaw. */
  ghost predicate Resumes(s: System, s': System, p: Pid) {
    |s'.calls| == |s.calls| && exists i :: 0 <= i < |s.calls| && ResumesBy(s.calls[i], s'.calls[i], p)
  }

  predicate ResumesBy(c: Call, c': Call, p: Pid) {
    || (c.phase.Resuming? && c'.phase.Resuming? && p in c.phase.pending && p !in c'.phase.pending)
    || (c.phase.Extra? && c'.phase.Extra? && p !in c.phase.pids && c.phase.later == [p] + c'.phase.later)
  }

  /** The same for the step from one system of a run to the next. */
  ghost predicate CollectsAt(run: seq<System>, m: nat, name: Name, p: Pid)
    requires m + 1 < |run|
  {
    Collects(run[m], run[m + 1], name, p)
  }

  ghost predicate ResumesAt(run: seq<System>, j: nat, p: Pid)
    requires j + 1 < |run|
  {
    Resumes(run[j], run[j + 1], p)
  }

  /** The pid is in the record of the name, or a freeze of it has collected it. */
  ghost predicate Held(s: System, name: Name, p: Pid) {
    || (name in s.frozen && p in s.frozen[name])
    || exists i :: 0 <= i < |s.calls| && HeldBy(s.calls[i], name, p)
  }

  predicate HeldBy(c: Call, name: Name, p: Pid) {
    c.name == name && c.phase.Stopping? && p in c.phase.collected
  }

  lemma StepMovesOne(t: Table, s: System, i: nat, s': System)
    requires i < |s.calls| && StepOf(t, s, i, s')
    ensures |s'.calls| == |s.calls| && s'.calls[i].name == s.calls[i].name
    ensures forall j :: 0 <= j < |s.calls| && j != i ==> s'.calls[j] == s.calls[j]
  {
  }

  /** A step stops what it collects. */
  lemma CollectedIsStopped(t: Table, s: System, s': System, name: Name, p: Pid)
    requires Next(t, s, s') && Collects(s, s', name, p)
    ensures p in s'.stopped && p in t.alive
  {
    var i: nat :| i < |s.calls| && StepOf(t, s, i, s');
    var j :| 0 <= j < |s.calls| && CollectsBy(s.calls[j], s'.calls[j], name, p);
    StepMovesOne(t, s, i, s');
  }

  /** Nothing that is stopped runs again unless a thaw resumes it. */
  lemma StoppedStays(t: Table, s: System, s': System, p: Pid)
    requires Next(t, s, s') && p in s.stopped && !Resumes(s, s', p)
    ensures p in s'.stopped
  {
    var i: nat :| i < |s.calls| && StepOf(t, s, i, s');
    StepMovesOne(t, s, i, s');
    var c, c' := s.calls[i], s'.calls[i];
    assert !ResumesBy(c, c', p);
    if c.phase.Extra? && c.phase.later != [] {
      assert c.phase.later == [c.phase.later[0]] + c.phase.later[1..];
    }
  }

  /** What is held after a step was held before it, or the step collects it. */
  lemma HeldOrCollected(t: Table, s: System, s': System, name: Name, p: Pid)
    requires Next(t, s, s') && Held(s', name, p)
    ensures Held(s, name, p) || Collects(s, s', name, p)
  {
    var i: nat :| i < |s.calls| && StepOf(t, s, i, s');
    StepMovesOne(t, s, i, s');
    if name in s'.frozen && p in s'.frozen[name] {
      if !(name in s.frozen && p in s.frozen[name]) {
        assert HeldBy(s.calls[i], name, p);
      }
    } else {
      var j :| 0 <= j < |s'.calls| && HeldBy(s'.calls[j], name, p);
      assert HeldBy(s.calls[j], name, p) || CollectsBy(s.calls[j], s'.calls[j], name, p);
    }
  }

  /** Whatever runs beside it: a pid that a freeze has stopped stays stopped until a thaw resumes it. */
  lemma {:induction false} CollectedStaysStopped(t: Table, run: seq<System>, m: nat, n: nat, name: Name, p: Pid)
    requires IsRun(t, run) && m < n < |run| && CollectsAt(run, m, name, p)
    requires forall j: nat :: m < j < n ==> !ResumesAt(run, j, p)
    ensures p in run[n].stopped
  {
    var k := n - 1;
    assert Next(t, run[k], run[k + 1]);
    if k == m {
      CollectedIsStopped(t, run[m], run[n], name, p);
    } else {
      CollectedStaysStopped(t, run, m, k, name, p);
      assert !ResumesAt(run, k, p);
      StoppedStays(t, run[k], run[n], p);
    }
  }

  /** What is held was collected by a freeze of that name. */
  lemma {:induction false} HeldWasCollected(t: Table, run: seq<System>, n: nat, name: Name, p: Pid) returns (m: nat)
    requires IsRun(t, run) && Initial(run[0]) && n < |run| && Held(run[n], name, p)
    ensures m < n && CollectsAt(run, m, name, p)
  {
    if n == 0 {
      NothingHeld(run[0], name, p);
    } else {
      m := n - 1;
      assert Next(t, run[m], run[m + 1]);
      HeldOrCollected(t, run[m], run[n], name, p);
      if Held(run[m], name, p) {
        m := HeldWasCollected(t, run, m, name, p);
      }
    }
  }

  /** What is in a record was stopped by a freeze of that name, and is still stopped unless a thaw
      has resumed it since. */
  lemma RecordedIsStopped(t: Table, run: seq<System>, n: nat, name: Name, p: Pid) returns (m: nat)
    requires IsRun(t, run) && Initial(run[0]) && n < |run| && Held(run[n], name, p)
    ensures m < n && CollectsAt(run, m, name, p)
    ensures p in run[n].stopped || exists j: nat :: m < j < n && ResumesAt(run, j, p)
  {
    m := HeldWasCollected(t, run, n, name, p);
    if forall j: nat :: m < j < n ==> !ResumesAt(run, j, p) {
      CollectedStaysStopped(t, run, m, n, name, p);
    }
  }

  lemma NothingHeld(s: System, name: Name, p: Pid)
    requires Initial(s)
    ensures !Held(s, name, p)
  {
    forall i | 0 <= i < |s.calls|
      ensures !HeldBy(s.calls[i], name, p)
    {
      assert s.calls[i].phase == Check || s.calls[i].phase == Take;
    }
  }

  // ----- Runs of freezes only

  ghost predicate NamedBySome(s: System, name: Name) {
    exists i :: 0 <= i < |s.calls| && s.calls[i].name == name
  }

  predicate FreezePhase(t: Table, s: System, c: Call) {
    match c.phase
    case Check => true
    case Scan => true
    case Stopping(_, _) => PidsOf(t, c.name) != []
    case Returned => c.name in s.frozen || PidsOf(t, c.name) == []
    case _ => false
  }

  /** No call is a thaw, and what has been frozen stays in the record. */
  ghost predicate OnlyFreezes(t: Table, s: System) {
    && (forall i :: 0 <= i < |s.calls| ==> FreezePhase(t, s, s.calls[i]))
    && forall n :: n in s.frozen ==> PidsOf(t, n) != [] && NamedBySome(s, n)
  }

  lemma OnlyFreezesStep(t: Table, s: System, s': System)
    requires OnlyFreezes(t, s) && Next(t, s, s')
    ensures OnlyFreezes(t, s')
    ensures |s'.calls| == |s.calls| && forall i :: 0 <= i < |s.calls| ==> s'.calls[i].name == s.calls[i].name
  {
    var i: nat :| i < |s.calls| && StepOf(t, s, i, s');
    StepMovesOne(t, s, i, s');
    assert FreezePhase(t, s, s.calls[i]);
    forall j | 0 <= j < |s.calls|
      ensures FreezePhase(t, s', s'.calls[j]) && s'.calls[j].name == s.calls[j].name
    {
      assert FreezePhase(t, s, s.calls[j]);
    }
    forall n | n in s'.frozen
      ensures PidsOf(t, n) != [] && NamedBySome(s', n)
    {
      if n in s.frozen {
        var j :| 0 <= j < |s.calls| && s.calls[j].name == n;
        assert s'.calls[j].name == n;
      } else {
        assert s'.calls[i].name == n;
      }
    }
  }

  lemma FreezesResumeNothing(t: Table, s: System, s': System, p: Pid)
    requires OnlyFreezes(t, s)
    ensures !Resumes(s, s', p)
  {
    forall i | 0 <= i < |s.calls| && |s'.calls| == |s.calls|
      ensures !ResumesBy(s.calls[i], s'.calls[i], p)
    {
      assert FreezePhase(t, s, s.calls[i]);
    }
  }

  lemma {:induction false} OnlyFreezesRun(t: Table, run: seq<System>, n: nat)
    requires IsRun(t, run) && Initial(run[0]) && n < |run|
    requires forall i :: 0 <= i < |run[0].calls| ==> run[0].calls[i].phase == Check
    ensures OnlyFreezes(t, run[n])
    ensures |run[n].calls| == |run[0].calls|
    ensures forall i :: 0 <= i < |run[0].calls| ==> run[n].calls[i].name == run[0].calls[i].name
  {
    if n > 0 {
      OnlyFreezesRun(t, run, n - 1);
      assert Next(t, run[n - 1], run[n - 1 + 1]);
      OnlyFreezesStep(t, run[n - 1], run[n]);
    }
  }

  /** With freezes only, every recorded pid is stopped at every moment. */
  lemma RecordedIsStoppedNow(t: Table, run: seq<System>, n: nat, p: Pid)
    requires IsRun(t, run) && Initial(run[0]) && n < |run| && Recorded(run[n], p)
    requires forall i :: 0 <= i < |run[0].calls| ==> run[0].calls[i].phase == Check
    ensures p in run[n].stopped
  {
    var name :| name in run[n].frozen && p in run[n].frozen[name];
    var m := RecordedIsStopped(t, run, n, name, p);
    forall j: nat | m < j < n
      ensures !ResumesAt(run, j, p)
    {
      OnlyFreezesRun(t, run, j);
      FreezesResumeNothing(t, run[j], run[j + 1], p);
    }
  }

  /** However freezes interleave: once all have returned, the names with processes that any of them
      named are frozen, and exactly the targets of those are stopped. */
  lemma FreezesTogether(t: Table, run: seq<System>)
    requires IsRun(t, run) && Initial(run[0]) && AllReturned(run[|run| - 1])
    requires forall i :: 0 <= i < |run[0].calls| ==> run[0].calls[i].phase == Check
    ensures var last := run[|run| - 1];
            && (forall n :: n in last.frozen <==> PidsOf(t, n) != [] && NamedBySome(run[0], n))
            && (forall n :: n in last.frozen ==> AreTargets(t, n, last.frozen[n]))
            && forall p :: p in last.stopped <==> exists n :: n in last.frozen && IsTarget(t, n, p)
  {
    var last := run[|run| - 1];
    OnlyFreezesRun(t, run, |run| - 1);
    NobodyForgotten(t, run, |run| - 1);
    forall n | PidsOf(t, n) != [] && NamedBySome(run[0], n)
      ensures n in last.frozen
    {
      var i :| 0 <= i < |run[0].calls| && run[0].calls[i].name == n;
      assert FreezePhase(t, last, last.calls[i]) && last.calls[i].phase == Returned;
    }
    forall n | n in last.frozen
      ensures NamedBySome(run[0], n)
    {
      var i :| 0 <= i < |last.calls| && last.calls[i].name == n;
      assert run[0].calls[i].name == n;
    }
    forall p
      ensures p in last.stopped <==> exists n :: n in last.frozen && IsTarget(t, n, p)
    {
      if p in last.stopped {
        assert !OwedBySome(last, p);
        assert Recorded(last, p);
        var n :| n in last.frozen && p in last.frozen[n];
        assert AreTargets(t, n, last.frozen[n]);
      }
      if exists n :: n in last.frozen && IsTarget(t, n, p) {
        var n :| n in last.frozen && IsTarget(t, n, p);
        assert AreTargets(t, n, last.frozen[n]);
        RecordedIsStoppedNow(t, run, |run| - 1, p);
      }
    }
  }
}

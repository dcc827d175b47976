/** Any number of concurrent freeze and thaw calls, one lock section or one signal at a time. */
module FreezerProtocol {
  import opened ProcessTree
  import opened Freezer

  /** Where a call stands. The lock is held only inside the Check, Record and Take steps. */
  datatype Phase =
    | Check                                             // freeze: is the name frozen already?
    | Scan                                              // freeze: find the processes
    | Stopping(todo: seq<Pid>, collected: set<Pid>)     // freeze: SIGSTOP one by one, then record
    | Take                                              // thaw: remove the record
    | Resuming(pids: set<Pid>, pending: set<Pid>)       // thaw: SIGCONT the recorded pids
    | Extra(pids: set<Pid>, later: seq<Pid>)            // thaw: SIGCONT other processes of the name
    | Returned

  datatype Call = Call(name: Name, phase: Phase)

  datatype System = System(frozen: map<Name, set<Pid>>, stopped: set<Pid>, calls: seq<Call>)

  /** The pids to signal, in some order: all that is reachable from a process of the name. */
  ghost predicate IsPlan(t: Table, name: Name, todo: seq<Pid>) {
    forall p :: p in todo <==> ReachedFrom(t.children, PidsOf(t, name), p)
  }

  function Advance(s: System, i: nat, phase: Phase): System
    requires i < |s.calls|
  {
    s.(calls := s.calls[i := s.calls[i].(phase := phase)])
  }

  ghost predicate StepOf(t: Table, s: System, i: nat, s': System)
    requires i < |s.calls|
  {
    var name := s.calls[i].name;
    match s.calls[i].phase
    case Check => s' == Advance(s, i, if name in s.frozen then Returned else Scan)
    case Scan =>
      || (PidsOf(t, name) == [] && s' == Advance(s, i, Returned))
      || (PidsOf(t, name) != [] && exists todo :: IsPlan(t, name, todo) && s' == Advance(s, i, Stopping(todo, {})))
    case Stopping(todo, collected) =>
      if todo == [] then
        s' == Advance(s, i, Returned).(frozen := s.frozen[name := collected])
      else if todo[0] in t.alive then
        s' == Advance(s, i, Stopping(todo[1..], collected + {todo[0]})).(stopped := s.stopped + {todo[0]})
      else
        s' == Advance(s, i, Stopping(todo[1..], collected))
    case Take =>
      if name !in s.frozen then s' == Advance(s, i, Returned)
      else s' == Advance(s, i, Resuming(s.frozen[name], s.frozen[name])).(frozen := s.frozen - {name})
    case Resuming(pids, pending) =>
      if pending == {} then s' == Advance(s, i, Extra(pids, PidsOf(t, name)))
      else
        exists p :: (p in pending
                     && s' == Advance(s, i, Resuming(pids, pending - {p})).(stopped := s.stopped - ({p} * t.alive)))
    case Extra(pids, later) =>
      if later == [] then s' == Advance(s, i, Returned)
      else if later[0] in pids then s' == Advance(s, i, Extra(pids, later[1..]))
      else s' == Advance(s, i, Extra(pids, later[1..])).(stopped := s.stopped - ({later[0]} * t.alive))
    case Returned => false
  }

  ghost predicate Next(t: Table, s: System, s': System) {
    exists i: nat :: i < |s.calls| && StepOf(t, s, i, s')
  }

  ghost predicate IsRun(t: Table, run: seq<System>) {
    run != [] && forall k :: 0 <= k < |run| - 1 ==> Next(t, run[k], run[k + 1])
  }

  /** Nothing is frozen or stopped, and every call is about to start. */
  ghost predicate Initial(s: System) {
    && s.frozen == map[] && s.stopped == {}
    && forall i :: 0 <= i < |s.calls| ==> s.calls[i].phase == Check || s.calls[i].phase == Take
  }

  predicate AllReturned(s: System) {
    forall i :: 0 <= i < |s.calls| ==> s.calls[i].phase == Returned
  }

  // ----- Nobody is forgotten

  /** The pids that a call will still record or resume. */
  function Owed(c: Call): set<Pid> {
    match c.phase
    case Stopping(_, collected) => collected
    case Resuming(_, pending) => pending
    case _ => {}
  }

  ghost predicate Recorded(s: System, p: Pid) {
    exists n :: n in s.frozen && p in s.frozen[n]
  }

  ghost predicate OwedBySome(s: System, p: Pid) {
    exists i :: 0 <= i < |s.calls| && p in Owed(s.calls[i])
  }

  /** Every stopped pid is in a record, in what a freeze has collected and not yet
      recorded, or in what a thaw has taken and not yet resumed. */
  ghost predicate Accounted(s: System) {
    forall p :: p in s.stopped ==> Recorded(s, p) || OwedBySome(s, p)
  }

  /** A freeze has collected, or will collect, exactly the targets of its name; a thaw
      resumes only live pids. */
  ghost predicate CallInv(t: Table, c: Call) {
    match c.phase
    case Stopping(todo, collected) =>
      forall p :: p in collected || (p in todo && p in t.alive) <==> IsTarget(t, c.name, p)
    case Resuming(_, pending) => pending <= t.alive
    case _ => true
  }

  ghost predicate Inv(t: Table, s: System) {
    && Accounted(s)
    && (forall n :: n in s.frozen ==> AreTargets(t, n, s.frozen[n]))
    && forall i :: 0 <= i < |s.calls| ==> CallInv(t, s.calls[i])
  }

  lemma InitialInv(t: Table, s: System)
    requires Initial(s)
    ensures Inv(t, s)
  {
    forall i | 0 <= i < |s.calls|
      ensures CallInv(t, s.calls[i])
    {
      assert s.calls[i].phase == Check || s.calls[i].phase == Take;
    }
  }

  /** Other calls owe what they owed. */
  lemma StillOwed(s: System, s': System, i: nat, p: Pid)
    requires i < |s.calls| && |s'.calls| == |s.calls|
    requires forall j :: 0 <= j < |s.calls| && j != i ==> s'.calls[j] == s.calls[j]
    requires OwedBySome(s, p) && (p in Owed(s.calls[i]) ==> p in Owed(s'.calls[i]))
    ensures OwedBySome(s', p)
  {
    var j :| 0 <= j < |s.calls| && p in Owed(s.calls[j]);
    assert p in Owed(s'.calls[j]);
  }

  /** A step that stops nothing, records what was recorded, and lets call i owe what it
      owed but for what is running again or recorded. */
  lemma AccountedKeeps(s: System, s': System, i: nat)
    requires i < |s.calls| && |s'.calls| == |s.calls| && Accounted(s)
    requires forall j :: 0 <= j < |s.calls| && j != i ==> s'.calls[j] == s.calls[j]
    requires forall p :: p in s'.stopped ==> p in s.stopped || p in Owed(s'.calls[i])
    requires forall p :: p in s'.stopped && Recorded(s, p) ==> Recorded(s', p) || p in Owed(s'.calls[i])
    requires forall p :: p in s'.stopped && p in Owed(s.calls[i]) ==> p in Owed(s'.calls[i]) || Recorded(s', p)
    ensures Accounted(s')
  {
    forall p | p in s'.stopped
      ensures Recorded(s', p) || OwedBySome(s', p)
    {
      if p in Owed(s'.calls[i]) {
        assert OwedBySome(s', p);
      } else if !Recorded(s', p) {
        StillOwed(s, s', i, p);
      }
    }
  }

  lemma RecordKeeps(t: Table, s: System, i: nat, s': System)
    requires Inv(t, s) && i < |s.calls| && StepOf(t, s, i, s')
    requires s.calls[i].phase.Stopping? && s.calls[i].phase.todo == []
    ensures Inv(t, s')
  {
    var name, collected := s.calls[i].name, s.calls[i].phase.collected;
    assert CallInv(t, s.calls[i]);
    assert AreTargets(t, name, collected);
    forall p | Recorded(s, p)
      ensures Recorded(s', p)
    {
      var n :| n in s.frozen && p in s.frozen[n];
      assert n in s'.frozen && p in s'.frozen[n];
    }
    forall p | p in collected
      ensures Recorded(s', p)
    {
      assert name in s'.frozen && p in s'.frozen[name];
    }
    AccountedKeeps(s, s', i);
  }

  lemma StopKeeps(t: Table, s: System, i: nat, s': System)
    requires Inv(t, s) && i < |s.calls| && StepOf(t, s, i, s')
    requires s.calls[i].phase.Stopping? && s.calls[i].phase.todo != []
    ensures Inv(t, s')
  {
    var c, c' := s.calls[i], s'.calls[i];
    assert CallInv(t, c);
    assert c.phase.todo == [c.phase.todo[0]] + c.phase.todo[1..];
    forall p
      ensures p in c'.phase.collected || (p in c'.phase.todo && p in t.alive) <==> IsTarget(t, c.name, p)
    {
      assert p in c.phase.todo <==> p == c.phase.todo[0] || p in c.phase.todo[1..];
    }
    SameRecord(s, s');
    AccountedKeeps(s, s', i);
  }

  lemma SameRecord(s: System, s': System)
    requires s'.frozen == s.frozen
    ensures forall p :: Recorded(s, p) <==> Recorded(s', p)
  {
  }

  lemma TakeKeeps(t: Table, s: System, i: nat, s': System)
    requires Inv(t, s) && i < |s.calls| && StepOf(t, s, i, s') && s.calls[i].phase.Take?
    ensures Inv(t, s')
  {
    var name := s.calls[i].name;
    if name in s.frozen {
      forall p | Recorded(s, p)
        ensures Recorded(s', p) || p in s.frozen[name]
      {
        var n :| n in s.frozen && p in s.frozen[n];
        assert n != name ==> n in s'.frozen && p in s'.frozen[n];
      }
      forall p | p in s.frozen[name]
        ensures p in t.alive
      {
        assert AreTargets(t, name, s.frozen[name]);
      }
      AccountedKeeps(s, s', i);
    } else {
      SameRecord(s, s');
      AccountedKeeps(s, s', i);
    }
  }

  lemma ResumeKeeps(t: Table, s: System, i: nat, s': System)
    requires Inv(t, s) && i < |s.calls| && StepOf(t, s, i, s')
    requires s.calls[i].phase.Resuming? || s.calls[i].phase.Extra?
    ensures Inv(t, s')
  {
    assert CallInv(t, s.calls[i]);
    SameRecord(s, s');
    AccountedKeeps(s, s', i);
  }

  lemma ScanKeeps(t: Table, s: System, i: nat, s': System)
    requires Inv(t, s) && i < |s.calls| && StepOf(t, s, i, s')
    requires s.calls[i].phase.Check? || s.calls[i].phase.Scan?
    ensures Inv(t, s')
  {
    SameRecord(s, s');
    AccountedKeeps(s, s', i);
    if s'.calls[i].phase.Stopping? {
      assert CallInv(t, s'.calls[i]);
    }
  }

  lemma StepKeepsInv(t: Table, s: System, s': System)
    requires Inv(t, s) && Next(t, s, s')
    ensures Inv(t, s')
  {
    var i: nat :| i < |s.calls| && StepOf(t, s, i, s');
    match s.calls[i].phase
    case Check => ScanKeeps(t, s, i, s');
    case Scan => ScanKeeps(t, s, i, s');
    case Stopping(todo, _) =>
      if todo == [] {
        RecordKeeps(t, s, i, s');
      } else {
        StopKeeps(t, s, i, s');
      }
    case Take => TakeKeeps(t, s, i, s');
    case Resuming(_, _) => ResumeKeeps(t, s, i, s');
    case Extra(_, _) => ResumeKeeps(t, s, i, s');
  }

  /** In every interleaving, at every moment, every stopped pid is accounted for. */
  lemma {:induction false} NobodyForgotten(t: Table, run: seq<System>, n: nat)
    requires IsRun(t, run) && Initial(run[0]) && n < |run|
    ensures Inv(t, run[n]) && Accounted(run[n])
  {
    if n == 0 {
      InitialInv(t, run[0]);
    } else {
      NobodyForgotten(t, run, n - 1);
      assert Next(t, run[n - 1], run[n - 1 + 1]);
      StepKeepsInv(t, run[n - 1], run[n]);
    }
  }

  // ----- Thawing everything

  /** Thaw one name with nothing else going on. */
  function ThawOne(t: Table, s: System, name: Name): System {
    var (frozen, stopped) := Thawed(t, s.frozen, s.stopped, name);
    s.(frozen := frozen, stopped := stopped)
  }

  function ThawAll(t: Table, s: System, names: seq<Name>): System
    decreases |names|
  {
    if names == [] then s else ThawAll(t, ThawOne(t, s, names[0]), names[1..])
  }

  lemma ThawOneAccounted(t: Table, s: System, name: Name)
    requires (forall n :: n in s.frozen ==> AreTargets(t, n, s.frozen[n])) && forall p :: p in s.stopped ==> Recorded(s, p)
    ensures var s' := ThawOne(t, s, name);
            && (forall n :: n in s'.frozen ==> AreTargets(t, n, s'.frozen[n]))
            && (forall p :: p in s'.stopped ==> Recorded(s', p))
            && s'.frozen.Keys == s.frozen.Keys - {name}
  {
    var s' := ThawOne(t, s, name);
    forall p | p in s'.stopped
      ensures Recorded(s', p)
    {
      assert p in s.stopped && Recorded(s, p);
      var n :| n in s.frozen && p in s.frozen[n];
      assert AreTargets(t, n, s.frozen[n]) && IsTarget(t, n, p);
      assert n in s'.frozen && p in s'.frozen[n];
    }
  }

  lemma {:induction false} ThawAllResumes(t: Table, s: System, names: seq<Name>)
    requires (forall n :: n in s.frozen ==> AreTargets(t, n, s.frozen[n])) && forall p :: p in s.stopped ==> Recorded(s, p)
    requires forall n :: n in s.frozen ==> n in names
    ensures ThawAll(t, s, names).stopped == {} && ThawAll(t, s, names).frozen == map[]
    decreases |names|
  {
    if names == [] {
      assert s.frozen == map[];
      assert forall p :: !Recorded(s, p);
      HasMember(s.stopped);
    } else {
      ThawOneAccounted(t, s, names[0]);
      var s' := ThawOne(t, s, names[0]);
      forall n | n in s'.frozen
        ensures n in names[1..]
      {
        assert n in s'.frozen.Keys && n != names[0];
        assert names == [names[0]] + names[1..];
      }
      ThawAllResumes(t, s', names[1..]);
    }
  }

  /** Once all calls have returned, thawing every listed name leaves nothing stopped. */
  lemma ThawingAllLeavesNothingStopped(t: Table, run: seq<System>, names: seq<Name>)
    requires IsRun(t, run) && Initial(run[0]) && AllReturned(run[|run| - 1])
    requires forall n :: n in run[|run| - 1].frozen ==> n in names
    ensures ThawAll(t, run[|run| - 1], names).stopped == {}
  {
    var last := run[|run| - 1];
    NobodyForgotten(t, run, |run| - 1);
    assert forall i :: 0 <= i < |last.calls| ==> Owed(last.calls[i]) == {};
    assert forall p :: p in last.stopped ==> Recorded(last, p);
    ThawAllResumes(t, last, names);
  }
}

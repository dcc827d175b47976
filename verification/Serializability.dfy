/** Two-phase programs are serializable: whatever the interleaving, a finished run leaves
    the state and the locals that running the programs one at a time, in the order of
    their last acquisitions, would have left. */
module Serializability {
  import opened ControlState
  import opened LockMachine

  /** What a run has settled so far: the programs past their last acquisition in that
      order, the state they leave when run alone, and their locals. */
  datatype History = History(order: seq<nat>, spec: Shared, results: map<nat, Local>)

  ghost predicate Disjoint(ts: seq<Thread>) {
    forall i, j :: 0 <= i < j < |ts| ==> ts[i].held !! ts[j].held
  }

  /** The state is settled wherever nobody holds the lock. */
  ghost predicate Settled(ts: seq<Thread>, shared: Shared, spec: Shared) {
    forall l :: Free(ts, l) ==> SameAt(l, shared, spec)
  }

  ghost predicate Serial(progs: seq<Prog>, h: History, s0: Shared) {
    && (forall k :: 0 <= k < |h.order| ==> h.order[k] < |progs|)
    && (forall j, k :: 0 <= j < k < |h.order| ==> h.order[j] != h.order[k])
    && RunInOrder(progs, h.order, s0) == (h.spec, h.results)
  }

  /** Before its last acquisition, the rest of a thread on what it holds does what the
      whole program would do, whatever the state is elsewhere. */
  ghost predicate Growing(full: Prog, t: Thread, shared: Shared, spec: Shared) {
    forall s: Shared :: AgreeOn(t.held, s, spec) ==>
                          Run(t.rest, t.local, Mix(t.held, shared, s)) == Run(full, FRESH, s)
  }

  /** After it, the rest of the thread only catches up with the settled state. */
  ghost predicate Shrinking(t: Thread, shared: Shared, spec: Shared, result: Local) {
    Run(t.rest, t.local, Mix(t.held, shared, spec)) == (result, spec)
  }

  ghost predicate ThreadInv(progs: seq<Prog>, i: nat, t: Thread, shared: Shared, h: History)
    requires i < |progs|
  {
    && TwoPhase(t.rest, t.held)
    && (i in h.order <==> !HasAcquire(t.rest))
    && if HasAcquire(t.rest) then Growing(progs[i], t, shared, h.spec)
       else i in h.results && Shrinking(t, shared, h.spec, h.results[i])
  }

  ghost predicate Inv(progs: seq<Prog>, m: Machine, h: History, s0: Shared) {
    && |m.threads| == |progs|
    && Serial(progs, h, s0)
    && Disjoint(m.threads)
    && Settled(m.threads, m.shared, h.spec)
    && forall i :: 0 <= i < |progs| ==> ThreadInv(progs, i, m.threads[i], m.shared, h)
  }

  // ----- Other threads

  /** A step that changes neither a thread nor what it holds keeps its invariant. */
  lemma Bystander(progs: seq<Prog>, i: nat, t: Thread, shared: Shared, shared': Shared, h: History)
    requires i < |progs| && ThreadInv(progs, i, t, shared, h) && AgreeOn(t.held, shared, shared')
    ensures ThreadInv(progs, i, t, shared', h)
  {
    forall s: Shared
      ensures Mix(t.held, shared, s) == Mix(t.held, shared', s)
    {
      MixAgree(t.held, shared, shared', s);
    }
  }

  /** Another thread's last acquisition settles only what that thread holds. */
  lemma BystanderOfLockPoint(progs: seq<Prog>, i: nat, t: Thread, shared: Shared, h: History, k: nat, loc: Local, spec: Shared)
    requires i < |progs| && i != k && ThreadInv(progs, i, t, shared, h) && AgreeOn(t.held, spec, h.spec)
    ensures ThreadInv(progs, i, t, shared, History(h.order + [k], spec, h.results[k := loc]))
  {
    if HasAcquire(t.rest) {
      forall s: Shared | AgreeOn(t.held, s, spec)
        ensures AgreeOn(t.held, s, h.spec)
      {
        assert forall l :: l in t.held ==> SameAt(l, s, spec) && SameAt(l, spec, h.spec);
      }
    } else {
      var x := Mix(t.held, shared, h.spec);
      RunFrame(t.rest, t.held, t.local, x, spec);
      assert Mix(t.held, x, spec) == Mix(t.held, shared, spec);
      MixSelf(t.held, h.spec, spec);
    }
  }

  // ----- The acting thread

  lemma ActKeeps(progs: seq<Prog>, i: nat, t: Thread, shared: Shared, h: History)
    requires i < |progs| && t.rest.Act? && ThreadInv(progs, i, t, shared, h)
    ensures var (loc, shared') := Do(t.rest.action, t.local, shared);
            ThreadInv(progs, i, Thread(t.rest.next, t.held, loc), shared', h)
  {
    forall s: Shared
      ensures Do(t.rest.action, t.local, Mix(t.held, shared, s)) ==
              (Do(t.rest.action, t.local, shared).0, Mix(t.held, Do(t.rest.action, t.local, shared).1, s))
    {
      DoFrame(t.rest.action, t.held, t.local, shared, s);
    }
  }

  lemma AcquireKeeps(progs: seq<Prog>, i: nat, t: Thread, shared: Shared, h: History)
    requires i < |progs| && t.rest.Acq? && HasAcquire(t.rest.next) && ThreadInv(progs, i, t, shared, h)
    requires SameAt(t.rest.lock, shared, h.spec)
    ensures ThreadInv(progs, i, Thread(t.rest.next, t.held + {t.rest.lock}, t.local), shared, h)
  {
    var l := t.rest.lock;
    var held := t.held + {l};
    forall s: Shared | AgreeOn(held, s, h.spec)
      ensures Run(t.rest.next, t.local, Mix(held, shared, s)) == Run(progs[i], FRESH, s)
    {
      assert AgreeOn(t.held, s, h.spec);
      MixOneMore(t.held, l, shared, s, h.spec);
    }
  }

  /** A lock whose part is the same on both sides can be added to a mix. */
  lemma MixOneMore(held: set<Lock>, l: Lock, shared: Shared, s: Shared, spec: Shared)
    requires SameAt(l, shared, spec) && AgreeOn(held + {l}, s, spec)
    ensures Mix(held + {l}, shared, s) == Mix(held, shared, s)
  {
    assert SameAt(l, s, spec);
  }

  /** The last acquisition: from here on the thread is ordered after all that are. */
  lemma LockPoint(progs: seq<Prog>, i: nat, t: Thread, shared: Shared, h: History) returns (h': History)
    requires i < |progs| && t.rest.Acq? && !HasAcquire(t.rest.next) && ThreadInv(progs, i, t, shared, h)
    requires SameAt(t.rest.lock, shared, h.spec)
    ensures var (loc, spec) := Run(progs[i], FRESH, h.spec);
            h' == History(h.order + [i], spec, h.results[i := loc])
    ensures ThreadInv(progs, i, Thread(t.rest.next, t.held + {t.rest.lock}, t.local), shared, h')
    ensures forall l :: l !in t.held + {t.rest.lock} ==> SameAt(l, h.spec, h'.spec)
  {
    var l := t.rest.lock;
    var held := t.held + {l};
    var (loc, spec) := Run(progs[i], FRESH, h.spec);
    h' := History(h.order + [i], spec, h.results[i := loc]);
    assert AgreeOn(t.held, h.spec, h.spec);
    assert Run(t.rest, t.local, Mix(t.held, shared, h.spec)) == (loc, spec);
    assert AgreeOn(held, h.spec, h.spec);
    MixOneMore(t.held, l, shared, h.spec, h.spec);
    var x := Mix(held, shared, h.spec);
    RunFrame(t.rest.next, held, t.local, x, h.spec);
    assert Mix(held, x, h.spec) == x;
    RunFrame(t.rest.next, held, t.local, x, spec);
    assert Mix(held, x, spec) == Mix(held, shared, spec);
    assert Mix(held, spec, spec) == spec;
  }

  lemma ReleaseKeeps(progs: seq<Prog>, i: nat, t: Thread, shared: Shared, h: History)
    requires i < |progs| && t.rest.Rel? && ThreadInv(progs, i, t, shared, h)
    ensures ThreadInv(progs, i, Thread(t.rest.next, t.held - {t.rest.lock}, t.local), shared, h)
    ensures SameAt(t.rest.lock, shared, h.spec)
  {
    var l := t.rest.lock;
    var held := t.held - {l};
    var x := Mix(t.held, shared, h.spec);
    RunFrame(t.rest.next, held, t.local, x, x);
    assert Mix(held, x, x) == x;
    assert h.spec == Mix(held, h.spec, x);
    assert SameAt(l, x, h.spec) && SameAt(l, x, shared);
    assert Mix(held, shared, h.spec) == x;
  }

  // ----- Steps of the machine

  lemma ActStep(progs: seq<Prog>, m: Machine, i: nat, m': Machine, h: History, s0: Shared)
    requires Inv(progs, m, h, s0) && i < |m.threads| && m.threads[i].rest.Act? && StepOf(m, i, m')
    ensures Inv(progs, m', h, s0)
  {
    var t := m.threads[i];
    ActKeeps(progs, i, t, m.shared, h);
    forall j | 0 <= j < |progs| && j != i
      ensures ThreadInv(progs, j, m'.threads[j], m'.shared, h)
    {
      forall l | l in m.threads[j].held
        ensures SameAt(l, m.shared, m'.shared)
      {
        DoElsewhere(t.rest.action, t.local, m.shared, l);
      }
      Bystander(progs, j, m.threads[j], m.shared, m'.shared, h);
    }
    forall l | Free(m'.threads, l)
      ensures SameAt(l, m'.shared, h.spec)
    {
      SameLocks(m.threads, i, m'.threads, l);
      DoElsewhere(t.rest.action, t.local, m.shared, l);
    }
  }

  /** Replacing a thread by one that holds the same locks frees nothing. */
  lemma SameLocks(ts: seq<Thread>, i: nat, ts': seq<Thread>, l: Lock)
    requires i < |ts| && |ts'| == |ts| && ts'[i].held == ts[i].held
    requires forall j :: 0 <= j < |ts| && j != i ==> ts'[j] == ts[j]
    ensures Free(ts', l) <==> Free(ts, l)
    ensures Free(ts', l) ==> l !in ts[i].held
  {
    if Free(ts, l) {
      forall j | 0 <= j < |ts'|
        ensures l !in ts'[j].held
      {
        assert l !in ts[j].held;
      }
    }
    if Free(ts', l) {
      forall j | 0 <= j < |ts|
        ensures l !in ts[j].held
      {
        assert l !in ts'[j].held;
      }
    }
  }

  lemma AcquireStep(progs: seq<Prog>, m: Machine, i: nat, m': Machine, h: History, s0: Shared) returns (h': History)
    requires Inv(progs, m, h, s0) && i < |m.threads| && m.threads[i].rest.Acq? && StepOf(m, i, m')
    ensures Inv(progs, m', h', s0) && h.order <= h'.order
  {
    var t := m.threads[i];
    var l := t.rest.lock;
    FreeAfterAcquire(m.threads, i, l, m'.threads);
    if HasAcquire(t.rest.next) {
      h' := h;
      AcquireKeeps(progs, i, t, m.shared, h);
    } else {
      h' := LockPoint(progs, i, t, m.shared, h);
      Appended(progs, h, i, s0);
      forall j | 0 <= j < |progs| && j != i
        ensures ThreadInv(progs, j, m'.threads[j], m'.shared, h')
      {
        forall k | k in m.threads[j].held
          ensures SameAt(k, h'.spec, h.spec)
        {
          assert k !in t.held + {l};
        }
        BystanderOfLockPoint(progs, j, m.threads[j], m.shared, h, i, h'.results[i], h'.spec);
      }
    }
  }

  lemma FreeAfterAcquire(ts: seq<Thread>, i: nat, l: Lock, ts': seq<Thread>)
    requires Disjoint(ts) && i < |ts| && Free(ts, l) && |ts'| == |ts| && ts'[i].held == ts[i].held + {l}
    requires forall j :: 0 <= j < |ts| && j != i ==> ts'[j] == ts[j]
    ensures Disjoint(ts')
    ensures forall k :: Free(ts', k) ==> Free(ts, k) && k !in ts'[i].held
    ensures forall j :: 0 <= j < |ts| && j != i ==> ts[j].held !! ts'[i].held
  {
    forall k | Free(ts', k)
      ensures Free(ts, k)
    {
      forall j | 0 <= j < |ts|
        ensures k !in ts[j].held
      {
        assert k !in ts'[j].held;
      }
    }
  }

  lemma Appended(progs: seq<Prog>, h: History, i: nat, s0: Shared)
    requires Serial(progs, h, s0) && i < |progs| && i !in h.order
    ensures var (loc, spec) := Run(progs[i], FRESH, h.spec);
            Serial(progs, History(h.order + [i], spec, h.results[i := loc]), s0)
  {
    assert (h.order + [i])[..|h.order|] == h.order;
  }

  lemma ReleaseStep(progs: seq<Prog>, m: Machine, i: nat, m': Machine, h: History, s0: Shared)
    requires Inv(progs, m, h, s0) && i < |m.threads| && m.threads[i].rest.Rel? && StepOf(m, i, m')
    ensures Inv(progs, m', h, s0)
  {
    var t := m.threads[i];
    ReleaseKeeps(progs, i, t, m.shared, h);
    forall l | Free(m'.threads, l)
      ensures SameAt(l, m.shared, h.spec)
    {
      if l != t.rest.lock {
        forall j | 0 <= j < |m.threads|
          ensures l !in m.threads[j].held
        {
          assert l !in m'.threads[j].held;
        }
      }
    }
  }

  /** Every step keeps the invariant, and the order so far is never revised. */
  lemma StepKeepsInv(progs: seq<Prog>, m: Machine, m': Machine, h: History, s0: Shared) returns (h': History)
    requires Inv(progs, m, h, s0) && Next(m, m')
    ensures Inv(progs, m', h', s0) && h.order <= h'.order
  {
    var i: nat :| i < |m.threads| && StepOf(m, i, m');
    assert ThreadInv(progs, i, m.threads[i], m.shared, h);
    h' := h;
    match m.threads[i].rest
    case Acq(_, _) => h' := AcquireStep(progs, m, i, m', h, s0);
    case Rel(_, _) => ReleaseStep(progs, m, i, m', h, s0);
    case Act(_, _) => ActStep(progs, m, i, m', h, s0);
  }

  lemma InitInv(progs: seq<Prog>, s0: Shared)
    requires forall p <- progs :: TwoPhase(p, {}) && HasAcquire(p)
    ensures Inv(progs, Init(progs, s0), History([], s0, map[]), s0)
  {
    var h := History([], s0, map[]);
    var m := Init(progs, s0);
    forall i | 0 <= i < |progs|
      ensures ThreadInv(progs, i, m.threads[i], s0, h)
    {
      assert m.threads[i] == Thread(progs[i], {}, FRESH);
      assert TwoPhase(progs[i], {}) && HasAcquire(progs[i]);
    }
  }

  lemma {:induction false} RunKeepsInv(progs: seq<Prog>, run: seq<Machine>, s0: Shared, n: nat) returns (h: History)
    requires forall p <- progs :: TwoPhase(p, {}) && HasAcquire(p)
    requires IsRun(run) && run[0] == Init(progs, s0) && n < |run|
    ensures Inv(progs, run[n], h, s0)
  {
    if n == 0 {
      InitInv(progs, s0);
      h := History([], s0, map[]);
    } else {
      var g := RunKeepsInv(progs, run, s0, n - 1);
      assert Next(run[n - 1], run[n - 1 + 1]);
      h := StepKeepsInv(progs, run[n - 1], run[n], g, s0);
    }
  }

  /** Each index below n once. */
  ghost predicate IsOrderOf(order: seq<nat>, n: nat) {
    && (forall k :: 0 <= k < |order| ==> order[k] < n)
    && (forall j, k :: 0 <= j < k < |order| ==> order[j] != order[k])
    && forall i :: 0 <= i < n ==> i in order
  }

  /** Every finished run of two-phase programs leaves the state and the locals of running
      them one at a time in some order. */
  lemma Serializable(progs: seq<Prog>, run: seq<Machine>, s0: Shared) returns (order: seq<nat>)
    requires forall p <- progs :: TwoPhase(p, {}) && HasAcquire(p)
    requires IsRun(run) && run[0] == Init(progs, s0) && Finished(run[|run| - 1])
    ensures IsOrderOf(order, |progs|)
    ensures var last := run[|run| - 1];
            var (shared, locals) := RunInOrder(progs, order, s0);
            && last.shared == shared
            && |last.threads| == |progs|
            && forall i :: 0 <= i < |progs| ==> i in locals && last.threads[i].local == locals[i]
  {
    var h := RunKeepsInv(progs, run, s0, |run| - 1);
    FinishedInOrder(progs, run[|run| - 1], h, s0);
    order := h.order;
  }

  lemma FinishedInOrder(progs: seq<Prog>, last: Machine, h: History, s0: Shared)
    requires Inv(progs, last, h, s0) && Finished(last)
    ensures IsOrderOf(h.order, |progs|) && last.shared == h.spec
    ensures forall i :: 0 <= i < |progs| ==> i in h.results && last.threads[i].local == h.results[i]
  {
    forall i | 0 <= i < |progs|
      ensures i in h.order && i in h.results && last.threads[i].local == h.results[i] && last.threads[i].held == {}
    {
      assert ThreadInv(progs, i, last.threads[i], last.shared, h);
    }
    AllFree(last.threads);
    assert SameAt(MapLock, last.shared, h.spec) && SameAt(FocusLock, last.shared, h.spec);
    assert SameAt(DynLock, last.shared, h.spec) && SameAt(AppsLock, last.shared, h.spec);
  }

  lemma AllFree(ts: seq<Thread>)
    requires forall i :: 0 <= i < |ts| ==> ts[i].held == {}
    ensures forall l :: Free(ts, l)
  {
  }
}

/** Freezing and thawing by name: the calls one at a time, and the protocol of concurrent
    calls, which drop the lock between check, signals and record. */
module Freezer {
  import opened ProcessTree
  import opened SortedStrings

  type Name = string

  /** A fixed process table: the pids of each name, the tree, and the pids a signal reaches. */
  datatype Table = Table(named: map<Name, seq<Pid>>, children: Children, alive: set<Pid>)

  function PidsOf(t: Table, name: Name): seq<Pid> {
    if name in t.named then t.named[name] else []
  }

  ghost predicate ReachedFrom(ch: Children, roots: seq<Pid>, p: Pid) {
    exists i :: 0 <= i < |roots| && Reachable(ch, roots[i], p)
  }

  lemma ReachedFromMore(ch: Children, roots: seq<Pid>, n: nat, p: Pid)
    requires n < |roots|
    ensures ReachedFrom(ch, roots[..n + 1], p) <==> ReachedFrom(ch, roots[..n], p) || Reachable(ch, roots[n], p)
  {
    assert roots[..n + 1] == roots[..n] + [roots[n]];
    if ReachedFrom(ch, roots[..n], p) {
      var i :| 0 <= i < n && Reachable(ch, roots[..n][i], p);
      assert roots[..n + 1][i] == roots[..n][i];
    }
    if Reachable(ch, roots[n], p) {
      assert roots[..n + 1][n] == roots[n];
    }
  }

  /** The pids that freezing a name stops: all live pids of the trees under its processes. */
  ghost predicate IsTarget(t: Table, name: Name, p: Pid) {
    p in t.alive && ReachedFrom(t.children, PidsOf(t, name), p)
  }

  ghost predicate AreTargets(t: Table, name: Name, pids: set<Pid>) {
    forall p :: p in pids <==> IsTarget(t, name, p)
  }

  lemma HasMember(s: set<Pid>)
    ensures s == {} || exists p: Pid :: p in s
  {
    if forall p: Pid :: p !in s {
      assert s == {};
    }
  }

  // ----- One call at a time

  /** What thawing a listed name leaves: its record gone, and the live pids of the record and
      of the name running again. */
  function Thawed(t: Table, frozen: map<Name, set<Pid>>, stopped: set<Pid>, name: Name): (map<Name, set<Pid>>, set<Pid>) {
    if name !in frozen then (frozen, stopped)
    else (frozen - {name}, (stopped - (frozen[name] * t.alive)) - (PidSet(PidsOf(t, name)) * t.alive))
  }

  function PidSet(pids: seq<Pid>): set<Pid> {
    set p | p in pids
  }

  /** The freezer's record, and the processes that are stopped in the kernel. */
  class FreezerState {
    var frozen: map<Name, set<Pid>>
    var stopped: set<Pid>

    constructor ()
      ensures frozen == map[] && stopped == {}
    {
      frozen, stopped := map[], {};
    }

    method FrozenNames() returns (names: seq<string>)
      ensures SortsTo(frozen.Keys, names)
    {
      names := SortStrings(frozen.Keys);
    }

    /** SIGSTOP the trees of all processes of this name and record the pids it reached. */
    method Freeze(t: Table, name: Name) returns (count: nat, already: bool, pids: seq<Pid>)
      modifies this
      ensures already == (name in old(frozen)) && pids == if already then [] else PidsOf(t, name)
      ensures pids == [] ==> unchanged(this) && count == 0
      ensures pids != [] ==>
                exists targets: set<Pid> ::
                  && AreTargets(t, name, targets) && count == |targets|
                  && frozen == old(frozen)[name := targets] && stopped == old(stopped) + targets
    {
      if name in frozen {
        return 0, true, [];
      }
      pids := PidsOf(t, name);
      if pids == [] {
        return 0, false, [];
      }
      var all := StopTrees(t, pids);
      assert AreTargets(t, name, all);
      frozen := frozen[name := all];
      return |all|, false, pids;
    }

    /** SIGSTOP the trees under all the given roots; the pids it reached. */
    method StopTrees(t: Table, roots: seq<Pid>) returns (all: set<Pid>)
      modifies `stopped
      ensures stopped == old(stopped) + all
      ensures forall p :: p in all <==> p in t.alive && ReachedFrom(t.children, roots, p)
    {
      all := {};
      for i := 0 to |roots|
        invariant stopped == old(stopped) + all
        invariant forall p :: p in all <==> p in t.alive && ReachedFrom(t.children, roots[..i], p)
      {
        var reached := StopTree(t, roots[i]);
        forall p
          ensures p in all + reached <==> p in t.alive && ReachedFrom(t.children, roots[..i + 1], p)
        {
          ReachedFromMore(t.children, roots, i, p);
        }
        all := all + reached;
      }
      assert roots[..|roots|] == roots;
    }

    method StopTree(t: Table, root: Pid) returns (reached: set<Pid>)
      modifies `stopped
      ensures stopped == old(stopped) + reached
      ensures forall p :: p in reached <==> p in t.alive && Reachable(t.children, root, p)
    {
      var sent, signaled := SignalTree(t.children, root, t.alive);
      reached := set p | p in signaled;
      stopped := stopped + reached;
    }

    /** Take the record of this name out and SIGCONT its pids, then any other process that
        has the name now. The process list names no pid twice. */
    method Thaw(t: Table, name: Name) returns (count: nat, found: bool)
      modifies this
      ensures found == (name in old(frozen))
      ensures (frozen, stopped) == Thawed(t, old(frozen), old(stopped), name)
      ensures !found ==> count == 0
      ensures found && NoRepeats(PidsOf(t, name)) ==>
                count == |(old(frozen)[name] + PidSet(PidsOf(t, name))) * t.alive|
    {
      if name !in frozen {
        return 0, false;
      }
      var pids := frozen[name];
      frozen := frozen - {name};
      count := ResumeRecorded(t, pids);
      var extra := ResumeOthers(t, pids, PidsOf(t, name));
      count := count + extra;
      assert (old(stopped) - (pids * t.alive)) - ((PidSet(PidsOf(t, name)) - pids) * t.alive)
          == (old(stopped) - (pids * t.alive)) - (PidSet(PidsOf(t, name)) * t.alive);
      UnionSize(pids, PidSet(PidsOf(t, name)), t.alive);
      return count, true;
    }

    method ResumeRecorded(t: Table, pids: set<Pid>) returns (count: nat)
      modifies `stopped
      ensures stopped == old(stopped) - (pids * t.alive) && count == |pids * t.alive|
    {
      count := 0;
      var left := pids;
      ghost var done: set<Pid> := {};
      while left != {}
        invariant done !! left && done + left == pids
        invariant stopped == old(stopped) - (done * t.alive) && count == |done * t.alive|
        decreases left
      {
        HasMember(left);
        var pid :| pid in left;
        OneMore(done, pid, t.alive);
        left, done := left - {pid}, done + {pid};
        if pid in t.alive {
          stopped := stopped - {pid};
          count := count + 1;
        }
      }
      assert done == pids;
    }

    method ResumeOthers(t: Table, pids: set<Pid>, extra: seq<Pid>) returns (count: nat)
      modifies `stopped
      ensures stopped == old(stopped) - ((PidSet(extra) - pids) * t.alive)
      ensures NoRepeats(extra) ==> count == |(PidSet(extra) - pids) * t.alive|
    {
      count := 0;
      for i := 0 to |extra|
        invariant stopped == old(stopped) - ((PidSet(extra[..i]) - pids) * t.alive)
        invariant NoRepeats(extra) ==> count == |(PidSet(extra[..i]) - pids) * t.alive|
      {
        var pid := extra[i];
        MorePids(extra, i, pids);
        if pid !in pids {
          OneMore(PidSet(extra[..i]) - pids, pid, t.alive);
          if pid in t.alive {
            stopped := stopped - {pid};
            count := count + 1;
          }
        }
      }
      assert extra[..|extra|] == extra;
    }
  }

  lemma OneMore(s: set<Pid>, p: Pid, alive: set<Pid>)
    ensures (s + {p}) * alive == s * alive + (if p in alive then {p} else {})
    ensures p !in s ==> |(s + {p}) * alive| == |s * alive| + if p in alive then 1 else 0
  {
    assert (s + {p}) * alive == s * alive + (if p in alive then {p} else {});
  }

  /** One more pid of the list, and whether it is new. */
  lemma MorePids(extra: seq<Pid>, i: nat, pids: set<Pid>)
    requires i < |extra|
    ensures PidSet(extra[..i + 1]) - pids ==
            (PidSet(extra[..i]) - pids) + if extra[i] in pids then {} else {extra[i]}
    ensures NoRepeats(extra) ==> extra[i] !in PidSet(extra[..i])
  {
    assert extra[..i + 1] == extra[..i] + [extra[i]];
  }

  lemma UnionSize(a: set<Pid>, b: set<Pid>, alive: set<Pid>)
    ensures |(a + b) * alive| == |a * alive| + |(b - a) * alive|
  {
    assert (a + b) * alive == a * alive + (b - a) * alive;
  }

  /** The processes of a name are among its targets. */
  lemma NamedAreTargets(t: Table, name: Name, p: Pid)
    requires p in PidsOf(t, name) && p in t.alive
    ensures IsTarget(t, name, p)
  {
    ReachesItself(t.children, p);
    var i :| 0 <= i < |PidsOf(t, name)| && PidsOf(t, name)[i] == p;
  }

  /** Freezing a name that is not frozen and thawing it again gives back the record, and
      leaves stopped just what was stopped before and is no target of the name. */
  method FreezeThenThaw(state: FreezerState, t: Table, name: Name)
    requires name !in state.frozen && PidsOf(t, name) != []
    modifies state
    ensures state.frozen == old(state.frozen)
    ensures forall p :: p in state.stopped <==> p in old(state.stopped) && !IsTarget(t, name, p)
  {
    var count, already, pids := state.Freeze(t, name);
    var resumed, found := state.Thaw(t, name);
    forall p | p in PidsOf(t, name) && p in t.alive
      ensures IsTarget(t, name, p)
    {
      NamedAreTargets(t, name, p);
    }
  }
}

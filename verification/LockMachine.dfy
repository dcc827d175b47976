/** Threads that run handler programs over shared state under mutexes, one lock operation
    or one action on the state at a time, in any interleaving. */
module LockMachine {
  import opened ControlState

  datatype Lock = MapLock | FocusLock | DynLock | AppsLock | FreezerLock

  /** One action of a handler on what its locks protect. */
  datatype Action =
    | Add(domain: Name)
    | Remove(domain: Name)
    | Extend
    | Retained(domains: seq<Name>)
    | ClearDomains
    | AddPush(domain: Name, report: bool)
    | SetFocus(on: bool)
    | ClearNames
    | PutName(name: string)
    | DropName(name: string)
    | PutPath(path: string)
    | DropPath(path: string)
    | ReadDyn
    | ReadFocus
    | ReadApps
    | Work

  /** A handler's local variables: domains added so far, errors, and what Status has read. */
  datatype Local = Local(added: seq<Name>, errors: seq<DomainError>, dyn: seq<Name>, focus: bool, apps: Apps)

  const FRESH := Local([], [], [], false, Apps({}, {}, {}))

  /** A handler from here on. Fork is a choice that depends on data outside this model. */
  datatype Prog =
    | Done
    | Acq(lock: Lock, next: Prog)
    | Rel(lock: Lock, next: Prog)
    | Act(action: Action, next: Prog)
    | Fork(left: Prog, right: Prog)

  function Footprint(a: Action): set<Lock> {
    match a
    case Add(_) => {MapLock}
    case Remove(_) => {MapLock}
    case Extend => {DynLock}
    case Retained(_) => {DynLock}
    case ClearDomains => {MapLock, DynLock}
    case AddPush(_, _) => {MapLock, DynLock}
    case SetFocus(_) => {FocusLock}
    case ClearNames => {AppsLock}
    case PutName(_) => {AppsLock}
    case DropName(_) => {AppsLock}
    case PutPath(_) => {AppsLock}
    case DropPath(_) => {AppsLock}
    case ReadDyn => {DynLock}
    case ReadFocus => {FocusLock}
    case ReadApps => {AppsLock}
    case Work => {}
  }

  function Do(a: Action, loc: Local, s: Shared): (Local, Shared) {
    match a
    case Add(d) =>
      var r := AddOne(Progress(s.blocklist, loc.added, loc.errors), d);
      (loc.(added := r.added, errors := r.errors), s.(blocklist := r.blocklist))
    case Remove(d) =>
      var r := RemoveOne(Progress(s.blocklist, loc.added, loc.errors), d);
      (loc.(errors := r.errors), s.(blocklist := r.blocklist))
    case Extend => (loc, s.(dynamicBlocked := s.dynamicBlocked + loc.added))
    case Retained(ds) => (loc, s.(dynamicBlocked := Retain(s.dynamicBlocked, ds)))
    case ClearDomains =>
      (loc, s.(blocklist := RemoveAll(Start(s.blocklist), s.dynamicBlocked).blocklist, dynamicBlocked := []))
    case AddPush(d, report) =>
      var r := AddOne(Progress(s.blocklist, s.dynamicBlocked, loc.errors), d);
      (if report then loc.(errors := r.errors) else loc, s.(blocklist := r.blocklist, dynamicBlocked := r.added))
    case SetFocus(on) => (loc, s.(focus := on))
    case ClearNames => (loc, s.(apps := s.apps.(names := {}, patterns := {})))
    case PutName(n) => (loc, s.(apps := InsertName(s.apps, n)))
    case DropName(n) => (loc, s.(apps := RemoveName(s.apps, n)))
    case PutPath(p) => (loc, s.(apps := s.apps.(paths := s.apps.paths + {p})))
    case DropPath(p) => (loc, s.(apps := s.apps.(paths := s.apps.paths - {p})))
    case ReadDyn => (loc.(dyn := s.dynamicBlocked), s)
    case ReadFocus => (loc.(focus := s.focus), s)
    case ReadApps => (loc.(apps := s.apps), s)
    case Work => (loc, s)
  }

  // ----- Machines and their runs

  datatype Thread = Thread(rest: Prog, held: set<Lock>, local: Local)
  datatype Machine = Machine(shared: Shared, threads: seq<Thread>)

  predicate Free(ts: seq<Thread>, l: Lock) {
    forall i :: 0 <= i < |ts| ==> l !in ts[i].held
  }

  ghost predicate StepOf(m: Machine, i: nat, m': Machine)
    requires i < |m.threads|
  {
    var t := m.threads[i];
    match t.rest
    case Done => false
    case Acq(l, next) =>
      Free(m.threads, l) && m' == m.(threads := m.threads[i := Thread(next, t.held + {l}, t.local)])
    case Rel(l, next) =>
      m' == m.(threads := m.threads[i := Thread(next, t.held - {l}, t.local)])
    case Act(a, next) =>
      var (loc, s) := Do(a, t.local, m.shared);
      m' == Machine(s, m.threads[i := Thread(next, t.held, loc)])
    case Fork(left, right) =>
      || m' == m.(threads := m.threads[i := t.(rest := left)])
      || m' == m.(threads := m.threads[i := t.(rest := right)])
  }

  ghost predicate Next(m: Machine, m': Machine) {
    exists i: nat :: i < |m.threads| && StepOf(m, i, m')
  }

  /** A finite run, given by the machines it goes through. */
  ghost predicate IsRun(run: seq<Machine>) {
    run != [] && forall k :: 0 <= k < |run| - 1 ==> Next(run[k], run[k + 1])
  }

  function Init(progs: seq<Prog>, s: Shared): (m: Machine)
    ensures |m.threads| == |progs|
    ensures forall i :: 0 <= i < |progs| ==> m.threads[i] == Thread(progs[i], {}, FRESH)
  {
    Machine(s, seq(|progs|, i requires 0 <= i < |progs| => Thread(progs[i], {}, FRESH)))
  }

  predicate Finished(m: Machine) {
    forall i :: 0 <= i < |m.threads| ==> m.threads[i].rest == Done
  }

  // ----- Programs on their own

  function HasAcquire(p: Prog): bool {
    match p
    case Done => false
    case Acq(_, _) => true
    case Rel(_, next) => HasAcquire(next)
    case Act(_, next) => HasAcquire(next)
    case Fork(left, right) => HasAcquire(left) || HasAcquire(right)
  }

  /** Holding exactly these locks, the program touches only what it has locked, never
      acquires after a release, and releases everything. */
  predicate TwoPhase(p: Prog, held: set<Lock>) {
    match p
    case Done => held == {}
    case Acq(l, next) => l !in held && TwoPhase(next, held + {l})
    case Rel(l, next) => l in held && !HasAcquire(next) && TwoPhase(next, held - {l})
    case Act(a, next) => Footprint(a) <= held && TwoPhase(next, held)
    case Fork(_, _) => false
  }

  /** The program run alone. */
  function Run(p: Prog, loc: Local, s: Shared): (Local, Shared) {
    match p
    case Done => (loc, s)
    case Acq(_, next) => Run(next, loc, s)
    case Rel(_, next) => Run(next, loc, s)
    case Act(a, next) => var (loc', s') := Do(a, loc, s); Run(next, loc', s')
    case Fork(left, _) => Run(left, loc, s)
  }

  /** The programs run alone in the given order: the state, and each program's locals. */
  function RunInOrder(progs: seq<Prog>, order: seq<nat>, s: Shared): (Shared, map<nat, Local>)
    requires forall k :: 0 <= k < |order| ==> order[k] < |progs|
  {
    if order == [] then (s, map[])
    else
      var last := order[|order| - 1];
      var (s', results) := RunInOrder(progs, order[..|order| - 1], s);
      var (loc, s'') := Run(progs[last], FRESH, s');
      (s'', results[last := loc])
  }

  // ----- Parts of the shared state

  predicate SameAt(l: Lock, a: Shared, b: Shared) {
    match l
    case MapLock => a.blocklist == b.blocklist
    case FocusLock => a.focus == b.focus
    case DynLock => a.dynamicBlocked == b.dynamicBlocked
    case AppsLock => a.apps == b.apps
    case FreezerLock => true
  }

  /** a on the parts that h protects, b elsewhere. */
  function Mix(h: set<Lock>, a: Shared, b: Shared): Shared {
    Shared(if MapLock in h then a.blocklist else b.blocklist,
           if FocusLock in h then a.focus else b.focus,
           if DynLock in h then a.dynamicBlocked else b.dynamicBlocked,
           if AppsLock in h then a.apps else b.apps)
  }

  predicate AgreeOn(h: set<Lock>, a: Shared, b: Shared) {
    forall l :: l in h ==> SameAt(l, a, b)
  }

  lemma MixAgree(h: set<Lock>, a: Shared, a': Shared, b: Shared)
    requires AgreeOn(h, a, a')
    ensures Mix(h, a, b) == Mix(h, a', b)
  {
    assert MapLock in h ==> SameAt(MapLock, a, a');
    assert FocusLock in h ==> SameAt(FocusLock, a, a');
    assert DynLock in h ==> SameAt(DynLock, a, a');
    assert AppsLock in h ==> SameAt(AppsLock, a, a');
  }

  lemma MixSelf(h: set<Lock>, a: Shared, b: Shared)
    requires AgreeOn(h, a, b)
    ensures Mix(h, a, b) == b
  {
    MixAgree(h, a, b, b);
  }

  /** An action only reads and writes its footprint. */
  lemma DoFrame(a: Action, h: set<Lock>, loc: Local, x: Shared, y: Shared)
    requires Footprint(a) <= h
    ensures Do(a, loc, Mix(h, x, y)) == (Do(a, loc, x).0, Mix(h, Do(a, loc, x).1, y))
  {
  }

  lemma DoElsewhere(a: Action, loc: Local, x: Shared, l: Lock)
    requires l !in Footprint(a)
    ensures SameAt(l, x, Do(a, loc, x).1)
  {
  }

  /** A program past its last acquisition only reads and writes what it still holds. */
  lemma {:induction false} RunFrame(p: Prog, h: set<Lock>, loc: Local, x: Shared, y: Shared)
    requires TwoPhase(p, h) && !HasAcquire(p)
    ensures Run(p, loc, Mix(h, x, y)) == (Run(p, loc, x).0, Mix(h, Run(p, loc, x).1, y))
  {
    match p
    case Done =>
    case Rel(l, next) =>
      var h' := h - {l};
      RunFrame(next, h', loc, x, Mix({l}, x, y));
      assert Mix(h', x, Mix({l}, x, y)) == Mix(h, x, y);
      RunFrame(next, h', loc, x, x);
      assert Mix(h', x, x) == x;
    case Act(a, next) =>
      DoFrame(a, h, loc, x, y);
      var (loc', x') := Do(a, loc, x);
      RunFrame(next, h, loc', x', y);
  }
}

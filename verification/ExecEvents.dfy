/** The permission events of program execution: the loop over the event buffer, which answers
    and closes every event's descriptor. */
module ExecEvents {
  import opened ByteStrings
  import opened ControlState
  import opened AppMatch

  const META_SIZE: nat := 24
  const OPEN_EXEC_PERM: nat := 0x40000
  const TWO_32: nat := 0x1_0000_0000

  // ----- Little-endian fields

  function Power256(k: nat): (n: nat)
    ensures n >= 1
  {
    if k == 0 then 1 else 256 * Power256(k - 1)
  }

  /** The k bytes of n, lowest first. */
  function Le(n: nat, k: nat): (b: Bytes)
    ensures |b| == k
    decreases k
  {
    if k == 0 then [] else [n % 256] + Le(n / 256, k - 1)
  }

  function LoadLe(buf: Bytes, off: nat, k: nat): (n: nat)
    requires off + k <= |buf|
    decreases k
  {
    if k == 0 then 0
    else
      var low: int := buf[off];
      low + 256 * LoadLe(buf, off + 1, k - 1)
  }

  /** A 32-bit field read as a signed number. */
  function Signed(n: nat): int {
    if n < TWO_32 / 2 then n else n - TWO_32
  }

  function Unsigned(n: int): (u: nat)
    requires -(TWO_32 / 2) <= n < TWO_32 / 2
    ensures u < TWO_32 && Signed(u) == n
  {
    if n >= 0 then n else n + TWO_32
  }

  lemma {:induction false} LeFits(n: nat, k: nat)
    requires n < Power256(k)
    ensures k > 0 ==> n / 256 < Power256(k - 1)
  {
  }

  lemma {:induction false} LoadOfLe(buf: Bytes, off: nat, n: nat, k: nat, y: Bytes) returns (next: nat)
    requires Ends(buf, off, Le(n, k) + y) && n < Power256(k)
    ensures next == off + k && next <= |buf| && LoadLe(buf, off, k) == n && Ends(buf, next, y)
    decreases k
  {
    if k == 0 {
      next := off;
      assert Le(n, k) + y == y;
    } else {
      var high := Le(n / 256, k - 1);
      assert Le(n, k) + y == [n % 256] + (high + y);
      EndsByte(buf, off, [n % 256] + (high + y), 0);
      next := EndsSplit(buf, off, [n % 256], high + y);
      LeFits(n, k);
      next := LoadOfLe(buf, next, n / 256, k - 1, y);
    }
  }

  // ----- Events

  datatype Event = Event(len: nat, mask: nat, fd: int, pid: int)

  function ReadEvent(buf: Bytes, off: nat): Event
    requires off + META_SIZE <= |buf|
  {
    Event(LoadLe(buf, off, 4), LoadLe(buf, off + 8, 8), Signed(LoadLe(buf, off + 16, 4)),
          Signed(LoadLe(buf, off + 20, 4)))
  }

  /** What the thread does to the outside: an answer, a close, a desktop notice. */
  datatype Effect = Respond(fd: int, allow: bool) | Close(fd: int) | Notify(name: string)

  /** What the outside shows while the event at an offset is handled: the path behind the
      descriptor, if it can be read, and the blocked set under its lock. */
  datatype Outside = Outside(path: Option<string>, apps: Apps)

  predicate ForExec(mask: nat) {
    (mask / OPEN_EXEC_PERM) % 2 == 1
  }

  function PathOf(o: Outside): string {
    match o.path
    case Some(path) => path
    case None => "<unknown>"
  }

  predicate Denied(e: Event, self: int, o: Outside) {
    e.pid != self && ForExec(e.mask) && Blocked(o.apps, PathOf(o))
  }

  function NoticeName(path: string): string {
    match FileName(path)
    case Some(name) => name
    case None => path
  }

  /** Nothing for an event without a descriptor; otherwise one answer, then one close. */
  function Reaction(e: Event, self: int, o: Outside): seq<Effect> {
    if e.fd < 0 then []
    else if Denied(e, self, o) then [Respond(e.fd, false), Close(e.fd), Notify(NoticeName(PathOf(o)))]
    else [Respond(e.fd, true), Close(e.fd)]
  }

  function Step(e: Event): (n: nat)
    ensures n > 0
  {
    if e.len > 0 then e.len else META_SIZE
  }

  /** An event and the offset it was found at. */
  datatype Visit = Visit(at: nat, event: Event)

  /** The events that the loop finds from an offset to the end of the buffer. */
  function Visits(buf: Bytes, off: nat): seq<Visit>
    decreases |buf| - off
  {
    if off + META_SIZE > |buf| then []
    else
      var e := ReadEvent(buf, off);
      [Visit(off, e)] + Visits(buf, off + Step(e))
  }

  function Flatten<T>(parts: seq<seq<T>>): seq<T> {
    if parts == [] then [] else Flatten(parts[..|parts| - 1]) + parts[|parts| - 1]
  }

  function Reactions(vs: seq<Visit>, self: int, outside: nat -> Outside): (rs: seq<seq<Effect>>)
    ensures |rs| == |vs| && forall i :: 0 <= i < |vs| ==> rs[i] == Reaction(vs[i].event, self, outside(vs[i].at))
  {
    seq(|vs|, i requires 0 <= i < |vs| => Reaction(vs[i].event, self, outside(vs[i].at)))
  }

  /** The effects of a whole buffer. */
  function Effects(buf: Bytes, self: int, outside: nat -> Outside): seq<Effect> {
    Flatten(Reactions(Visits(buf, 0), self, outside))
  }

  lemma ReactionsMore(vs: seq<Visit>, v: Visit, r: seq<Effect>, self: int, outside: nat -> Outside)
    requires r == Reaction(v.event, self, outside(v.at))
    ensures Reactions(vs + [v], self, outside) == Reactions(vs, self, outside) + [r]
  {
    var all := Reactions(vs + [v], self, outside);
    forall i | 0 <= i < |vs|
      ensures all[i] == Reactions(vs, self, outside)[i]
    {
      assert (vs + [v])[i] == vs[i];
    }
  }

  lemma FlattenMore<T>(parts: seq<seq<T>>, part: seq<T>)
    ensures Flatten(parts + [part]) == Flatten(parts) + part
  {
    assert (parts + [part])[..|parts|] == parts;
  }

  // ----- The loop

  class AppBlocker {
    var log: seq<Effect>

    constructor ()
      ensures log == []
    {
      log := [];
    }

    method Answer(fd: int, allow: bool)
      modifies this
      ensures log == old(log) + [Respond(fd, allow), Close(fd)]
    {
      log := log + [Respond(fd, allow)];
      log := log + [Close(fd)];
    }

    method Handle(event: Event, self: int, outside: Outside)
      modifies this
      ensures log == old(log) + Reaction(event, self, outside)
    {
      if event.fd < 0 {
        return;
      }
      if event.pid == self {
        Answer(event.fd, true);
        return;
      }
      if (event.mask / OPEN_EXEC_PERM) % 2 == 0 {
        Answer(event.fd, true);
        return;
      }
      var execPath := match outside.path
        case Some(path) => path
        case None => "<unknown>";
      var blocked := CheckPath(outside.apps, execPath);
      if blocked {
        Answer(event.fd, false);
        var name := match FileName(execPath)
          case Some(name) => name
          case None => execPath;
        log := log + [Notify(name)];
      } else {
        Answer(event.fd, true);
      }
    }

    /** Handles the first n bytes of the buffer, as one read left them. */
    method Drain(buf: array<Byte>, n: nat, self: int, outside: nat -> Outside)
      requires n <= buf.Length
      modifies this
      ensures log == old(log) + Effects(buf[..n], self, outside)
    {
      var off: nat := 0;
      ghost var data := buf[..n];
      ghost var seen: seq<Visit> := [];
      while off + META_SIZE <= n
        invariant SeenUpTo(data, off, seen)
        invariant log == old(log) + Flatten(Reactions(seen, self, outside))
        decreases n - off
      {
        var event := ReadEvent(buf[..n], off);
        var at := off;
        off := off + if event.len > 0 then event.len else META_SIZE;
        SeenStep(data, at, event, off, seen);
        Seen(old(log), seen, Visit(at, event), Reaction(event, self, outside(at)), self, outside);
        Handle(event, self, outside(at));
        seen := seen + [Visit(at, event)];
      }
      SeenAll(data, off, seen);
    }
  }

  /** The events seen so far and those from the offset on are all the events. */
  ghost predicate SeenUpTo(buf: Bytes, off: nat, seen: seq<Visit>) {
    seen + Visits(buf, off) == Visits(buf, 0)
  }

  lemma SeenStep(buf: Bytes, at: nat, e: Event, off: nat, seen: seq<Visit>)
    requires at + META_SIZE <= |buf| && e == ReadEvent(buf, at) && off == at + Step(e) && SeenUpTo(buf, at, seen)
    ensures SeenUpTo(buf, off, seen + [Visit(at, e)])
  {
    VisitsAt(buf, at, e, off);
    assert seen + ([Visit(at, e)] + Visits(buf, off)) == (seen + [Visit(at, e)]) + Visits(buf, off);
  }

  lemma SeenAll(buf: Bytes, off: nat, seen: seq<Visit>)
    requires off + META_SIZE > |buf| && SeenUpTo(buf, off, seen)
    ensures seen == Visits(buf, 0)
  {
  }

  lemma Seen(log: seq<Effect>, seen: seq<Visit>, v: Visit, r: seq<Effect>, self: int, outside: nat -> Outside)
    requires r == Reaction(v.event, self, outside(v.at))
    ensures log + Flatten(Reactions(seen, self, outside)) + r == log + Flatten(Reactions(seen + [v], self, outside))
  {
    var parts := Reactions(seen, self, outside);
    ReactionsMore(seen, v, r, self, outside);
    FlattenMore(parts, r);
    assert log + Flatten(parts) + r == log + (Flatten(parts) + r);
  }

  // ----- Every buffer

  /** An answer for a valid descriptor and its close, or a denial, its close and a notice. */
  predicate IsExchange(es: seq<Effect>) {
    && |es| >= 2 && es[0].Respond? && es[0].fd >= 0 && es[1] == Close(es[0].fd)
    && if es[0].allow then |es| == 2 else |es| == 3 && es[2].Notify?
  }

  /** Nothing but whole exchanges, one after the other. */
  ghost predicate WellPaired(es: seq<Effect>) {
    exists parts: seq<seq<Effect>> ::
      es == Flatten(parts) && forall i :: 0 <= i < |parts| ==> parts[i] == [] || IsExchange(parts[i])
  }

  lemma ReactionIsExchange(e: Event, self: int, o: Outside)
    ensures Reaction(e, self, o) == [] || IsExchange(Reaction(e, self, o))
  {
  }

  /** Whatever is in the buffer, every answer is for a valid descriptor and is followed at once
      by its close. */
  lemma {:induction false} EffectsPaired(buf: Bytes, self: int, outside: nat -> Outside)
    ensures WellPaired(Effects(buf, self, outside))
  {
    var vs := Visits(buf, 0);
    var parts := Reactions(vs, self, outside);
    forall i | 0 <= i < |parts|
      ensures parts[i] == [] || IsExchange(parts[i])
    {
      ReactionIsExchange(vs[i].event, self, outside(vs[i].at));
    }
    assert Effects(buf, self, outside) == Flatten(parts);
  }

  // ----- Buffers of whole records

  /** A record: the header fields and what follows the header. */
  datatype Record = Record(vers: Byte, reserved: Byte, metaLen: nat, mask: nat, fd: int, pid: int, extra: Bytes)

  predicate Fits(r: Record) {
    && META_SIZE + |r.extra| < TWO_32 && r.metaLen < 0x1_0000 && r.mask < TWO_32 * TWO_32
    && -(TWO_32 / 2) <= r.fd < TWO_32 / 2 && -(TWO_32 / 2) <= r.pid < TWO_32 / 2
  }

  function Size(r: Record): nat {
    META_SIZE + |r.extra|
  }

  function PutRecord(r: Record, rest: Bytes): Bytes
    requires Fits(r)
  {
    Le(Size(r), 4) + ([r.vers, r.reserved] + (Le(r.metaLen, 2) + (Le(r.mask, 8)
    + (Le(Unsigned(r.fd), 4) + (Le(Unsigned(r.pid), 4) + (r.extra + rest))))))
  }

  function Buffer(rs: seq<Record>): Bytes
    requires forall i :: 0 <= i < |rs| ==> Fits(rs[i])
  {
    if rs == [] then [] else PutRecord(rs[0], Buffer(rs[1..]))
  }

  function EventOf(r: Record): Event {
    Event(Size(r), r.mask, r.fd, r.pid)
  }

  lemma Powers()
    ensures Power256(2) == 0x1_0000 && Power256(4) == TWO_32 && Power256(8) == TWO_32 * TWO_32
  {
    assert Power256(1) == 256 && Power256(3) == 0x100_0000;
    assert Power256(5) == 256 * TWO_32 && Power256(6) == 0x1_0000 * TWO_32 && Power256(7) == 0x100_0000 * TWO_32;
  }

  /** The header of a record reads back as its event, and the next record starts where the
      event's length says. */
  lemma ReadRecord(buf: Bytes, off: nat, r: Record, rest: Bytes)
    requires Fits(r) && Ends(buf, off, PutRecord(r, rest))
    ensures off + META_SIZE <= |buf| && ReadEvent(buf, off) == EventOf(r)
    ensures Ends(buf, off + Size(r), rest)
  {
    Powers();
    var tail := r.extra + rest;
    var pid := Le(Unsigned(r.pid), 4) + tail;
    var fd := Le(Unsigned(r.fd), 4) + pid;
    var mask := Le(r.mask, 8) + fd;
    var metaLen := Le(r.metaLen, 2) + mask;
    var next := LoadOfLe(buf, off, Size(r), 4, [r.vers, r.reserved] + metaLen);
    next := EndsSplit(buf, next, [r.vers, r.reserved], metaLen);
    next := LoadOfLe(buf, next, r.metaLen, 2, mask);
    next := LoadOfLe(buf, next, r.mask, 8, fd);
    next := LoadOfLe(buf, next, Unsigned(r.fd), 4, pid);
    next := LoadOfLe(buf, next, Unsigned(r.pid), 4, tail);
    next := EndsSplit(buf, next, r.extra, rest);
  }

  lemma {:induction false} BufferFirst(rs: seq<Record>, rest: Bytes)
    requires rs != [] && (forall i :: 0 <= i < |rs| ==> Fits(rs[i])) && rest == Buffer(rs[1..])
    ensures Buffer(rs) == PutRecord(rs[0], rest)
  {
  }

  /** The records' events at their own offsets. */
  function Placed(rs: seq<Record>, off: nat): (vs: seq<Visit>)
    ensures |vs| == |rs| && forall i :: 0 <= i < |rs| ==> vs[i].event == EventOf(rs[i])
    decreases |rs|
  {
    if rs == [] then [] else [Visit(off, EventOf(rs[0]))] + Placed(rs[1..], off + Size(rs[0]))
  }

  lemma VisitsAt(buf: Bytes, off: nat, e: Event, next: nat)
    requires off + META_SIZE <= |buf| && e == ReadEvent(buf, off) && next == off + Step(e)
    ensures Visits(buf, off) == [Visit(off, e)] + Visits(buf, next)
  {
  }

  lemma {:induction false} VisitsFirst(buf: Bytes, off: nat, rs: seq<Record>, rest: Bytes) returns (next: nat)
    requires rs != [] && forall i :: 0 <= i < |rs| ==> Fits(rs[i])
    requires Ends(buf, off, Buffer(rs)) && rest == Buffer(rs[1..])
    ensures next == off + Size(rs[0]) && Ends(buf, next, rest)
    ensures Visits(buf, off) == [Visit(off, EventOf(rs[0]))] + Visits(buf, next)
  {
    next := off + Size(rs[0]);
    BufferFirst(rs, rest);
    ReadRecord(buf, off, rs[0], rest);
    VisitsAt(buf, off, EventOf(rs[0]), next);
  }

  lemma PlacedFirst(rs: seq<Record>, off: nat, next: nat)
    requires rs != [] && next == off + Size(rs[0])
    ensures Placed(rs, off) == [Visit(off, EventOf(rs[0]))] + Placed(rs[1..], next)
  {
  }

  /** Exactly once: the loop visits the records of a buffer, each once and in order. */
  lemma {:induction false} VisitsRecords(buf: Bytes, off: nat, rs: seq<Record>)
    requires forall i :: 0 <= i < |rs| ==> Fits(rs[i])
    requires Ends(buf, off, Buffer(rs))
    ensures Visits(buf, off) == Placed(rs, off)
    decreases |rs|
  {
    if rs != [] {
      var next := VisitsFirst(buf, off, rs, Buffer(rs[1..]));
      VisitsRecords(buf, next, rs[1..]);
      PlacedFirst(rs, off, next);
    }
  }

  lemma CountConcat<T>(a: seq<T>, b: seq<T>, e: T)
    ensures multiset(a + b)[e] == multiset(a)[e] + multiset(b)[e]
  {
    assert multiset(a + b) == multiset(a) + multiset(b);
  }

  /** An element of at most one part occurs in the whole as often as in that part. */
  lemma {:induction false} CountInFlatten<T>(parts: seq<seq<T>>, i: nat, e: T)
    requires forall j :: 0 <= j < |parts| && j != i ==> e !in parts[j]
    ensures multiset(Flatten(parts))[e] == if i < |parts| then multiset(parts[i])[e] else 0
    decreases |parts|
  {
    if parts != [] {
      var init, last := parts[..|parts| - 1], parts[|parts| - 1];
      assert forall j :: 0 <= j < |init| ==> init[j] == parts[j];
      CountInFlatten(init, i, e);
      CountConcat(Flatten(init), last, e);
    }
  }

  lemma ReactionCounts(e: Event, self: int, o: Outside)
    requires e.fd >= 0
    ensures var es := multiset(Reaction(e, self, o));
            var denied := Denied(e, self, o);
            es[Respond(e.fd, !denied)] == 1 && es[Respond(e.fd, denied)] == 0 && es[Close(e.fd)] == 1
  {
  }

  predicate Touches(e: Effect, fd: int) {
    (e.Respond? || e.Close?) && e.fd == fd
  }

  lemma ReactionTouchesOwn(e: Event, self: int, o: Outside, effect: Effect, fd: int)
    requires Touches(effect, fd) && e.fd != fd
    ensures effect !in Reaction(e, self, o)
  {
  }

  lemma {:induction false} CountOfVisit(vs: seq<Visit>, self: int, outside: nat -> Outside, i: nat, effect: Effect, own: seq<Effect>)
    requires i < |vs| && forall j :: 0 <= j < |vs| && j != i ==> vs[j].event.fd != vs[i].event.fd
    requires Touches(effect, vs[i].event.fd) && own == Reaction(vs[i].event, self, outside(vs[i].at))
    ensures multiset(Flatten(Reactions(vs, self, outside)))[effect] == multiset(own)[effect]
  {
    var parts := Reactions(vs, self, outside);
    forall j | 0 <= j < |parts| && j != i
      ensures effect !in parts[j]
    {
      ReactionTouchesOwn(vs[j].event, self, outside(vs[j].at), effect, vs[i].event.fd);
    }
    CountInFlatten(parts, i, effect);
  }

  /** A valid descriptor that one record carries is answered once and closed once, and the
      answer is a denial exactly for a blocked execution by another process. */
  lemma {:induction false} AnsweredOnce(rs: seq<Record>, self: int, outside: nat -> Outside, i: nat)
    requires forall j :: 0 <= j < |rs| ==> Fits(rs[j])
    requires i < |rs| && rs[i].fd >= 0 && forall j :: 0 <= j < |rs| && j != i ==> rs[j].fd != rs[i].fd
    ensures var es := multiset(Effects(Buffer(rs), self, outside));
            var denied := Denied(EventOf(rs[i]), self, outside(Placed(rs, 0)[i].at));
            es[Respond(rs[i].fd, !denied)] == 1 && es[Respond(rs[i].fd, denied)] == 0 && es[Close(rs[i].fd)] == 1
  {
    var vs, fd := Placed(rs, 0), rs[i].fd;
    var o := outside(vs[i].at);
    var own := Reaction(vs[i].event, self, o);
    VisitsRecords(Buffer(rs), 0, rs);
    assert forall j :: 0 <= j < |vs| ==> vs[j].event.fd == rs[j].fd;
    CountOfVisit(vs, self, outside, i, Respond(fd, true), own);
    CountOfVisit(vs, self, outside, i, Respond(fd, false), own);
    CountOfVisit(vs, self, outside, i, Close(fd), own);
    ReactionCounts(vs[i].event, self, o);
  }

  /** The answer by the fields of the record: a denial exactly for another process that opens a
      program for execution whose path, or the text that stands for one that cannot be read, is
      blocked. The daemon's own events are never denied. */
  lemma {:induction false} DeniedIff(rs: seq<Record>, self: int, outside: nat -> Outside, i: nat)
    requires forall j :: 0 <= j < |rs| ==> Fits(rs[j])
    requires i < |rs| && rs[i].fd >= 0 && forall j :: 0 <= j < |rs| && j != i ==> rs[j].fd != rs[i].fd
    ensures var es := multiset(Effects(Buffer(rs), self, outside));
            var o := outside(Placed(rs, 0)[i].at);
            && es[Respond(rs[i].fd, true)] + es[Respond(rs[i].fd, false)] == 1
            && (es[Respond(rs[i].fd, false)] == 1 <==>
                && rs[i].pid != self
                && (rs[i].mask / 0x40000) % 2 == 1
                && Blocked(o.apps, if o.path.Some? then o.path.value else "<unknown>"))
    ensures rs[i].pid == self ==> multiset(Effects(Buffer(rs), self, outside))[Respond(rs[i].fd, false)] == 0
  {
    AnsweredOnce(rs, self, outside, i);
  }

  /** The notice of a denial names the program. */
  lemma NoticeNamesProgram(e: Event, self: int, o: Outside, dir: string, name: string)
    requires e.fd >= 0 && Denied(e, self, o) && o.path == Some(dir + ("/" + name)) && IsName(name)
    ensures Reaction(e, self, o) == [Respond(e.fd, false), Close(e.fd), Notify(name)]
  {
    FileNameInDirectory(dir, name);
  }
}

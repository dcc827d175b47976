/** The process tree of a snapshot: the iterative traversal of the freezer, the recursive
    post-order it stands for, and the order in which signals are sent. */
module ProcessTree {
  import opened Sequences

  type Pid = int

  /** One line of the process table. */
  datatype Entry = Entry(pid: Pid, ppid: Pid)

  type Children = map<Pid, seq<Pid>>

  function Kids(ch: Children, p: Pid): seq<Pid> {
    if p in ch then ch[p] else []
  }

  // ----- The children map of a snapshot

  /** The pids whose parent is p, in the order of the snapshot. */
  function ChildrenOf(snapshot: seq<Entry>, p: Pid): seq<Pid> {
    if snapshot == [] then []
    else KidOf(snapshot[0], p) + ChildrenOf(snapshot[1..], p)
  }

  function AddKid(ch: Children, e: Entry): Children {
    ch[e.ppid := Kids(ch, e.ppid) + [e.pid]]
  }

  function KidOf(e: Entry, p: Pid): seq<Pid> {
    if e.ppid == p then [e.pid] else []
  }

  lemma ChildrenOfRest(snapshot: seq<Entry>, i: nat, p: Pid)
    requires i < |snapshot|
    ensures ChildrenOf(snapshot[i..], p) == KidOf(snapshot[i], p) + ChildrenOf(snapshot[i + 1..], p)
  {
    assert snapshot[i..][0] == snapshot[i] && snapshot[i..][1..] == snapshot[i + 1..];
  }

  lemma KidsOfAdded(ch: Children, e: Entry, p: Pid)
    ensures Kids(AddKid(ch, e), p) == Kids(ch, p) + KidOf(e, p)
  {
    if e.ppid != p {
      assert Kids(ch, p) + [] == Kids(ch, p);
    }
  }

  lemma BuildStep(snapshot: seq<Entry>, i: nat, ch: Children, p: Pid)
    requires i < |snapshot| && Kids(ch, p) + ChildrenOf(snapshot[i..], p) == ChildrenOf(snapshot, p)
    ensures Kids(AddKid(ch, snapshot[i]), p) + ChildrenOf(snapshot[i + 1..], p) == ChildrenOf(snapshot, p)
  {
    KidsOfAdded(ch, snapshot[i], p);
    ChildrenOfRest(snapshot, i, p);
    ConcatAssoc(Kids(ch, p), KidOf(snapshot[i], p), ChildrenOf(snapshot[i + 1..], p));
  }

  method BuildChildren(snapshot: seq<Entry>) returns (ch: Children)
    ensures forall p :: Kids(ch, p) == ChildrenOf(snapshot, p)
  {
    ch := map[];
    for i := 0 to |snapshot|
      invariant forall p :: Kids(ch, p) + ChildrenOf(snapshot[i..], p) == ChildrenOf(snapshot, p)
    {
      forall p
        ensures Kids(AddKid(ch, snapshot[i]), p) + ChildrenOf(snapshot[i + 1..], p) == ChildrenOf(snapshot, p)
      {
        BuildStep(snapshot, i, ch, p);
      }
      ch := AddKid(ch, snapshot[i]);
    }
    forall p
      ensures Kids(ch, p) == ChildrenOf(snapshot, p)
    {
      assert Kids(ch, p) + ChildrenOf(snapshot[|snapshot|..], p) == ChildrenOf(snapshot, p);
    }
  }

  /** No pid is listed under two parents, or twice under one. */
  ghost predicate SingleParent(ch: Children) {
    && (forall a, b, c :: c in Kids(ch, a) && c in Kids(ch, b) ==> a == b)
    && (forall a, i, j :: 0 <= i < j < |Kids(ch, a)| ==> Kids(ch, a)[i] != Kids(ch, a)[j])
  }

  predicate DistinctPids(snapshot: seq<Entry>) {
    forall i, j :: 0 <= i < j < |snapshot| ==> snapshot[i].pid != snapshot[j].pid
  }

  lemma {:induction false} ChildOfIsListed(snapshot: seq<Entry>, p: Pid, c: Pid)
    ensures c in ChildrenOf(snapshot, p) <==> Entry(c, p) in snapshot
    decreases |snapshot|
  {
    if snapshot != [] {
      ChildOfIsListed(snapshot[1..], p, c);
      assert snapshot == [snapshot[0]] + snapshot[1..];
    }
  }

  lemma {:induction false} ChildrenDistinct(snapshot: seq<Entry>, p: Pid)
    requires DistinctPids(snapshot)
    ensures forall i, j :: 0 <= i < j < |ChildrenOf(snapshot, p)| ==>
                             ChildrenOf(snapshot, p)[i] != ChildrenOf(snapshot, p)[j]
    decreases |snapshot|
  {
    if snapshot != [] {
      ChildrenDistinct(snapshot[1..], p);
      ChildOfIsListed(snapshot[1..], p, snapshot[0].pid);
    }
  }

  lemma OneParent(snapshot: seq<Entry>, a: Pid, b: Pid, c: Pid)
    requires DistinctPids(snapshot) && c in ChildrenOf(snapshot, a) && c in ChildrenOf(snapshot, b)
    ensures a == b
  {
    ChildOfIsListed(snapshot, a, c);
    ChildOfIsListed(snapshot, b, c);
    var i :| 0 <= i < |snapshot| && snapshot[i] == Entry(c, a);
    var j :| 0 <= j < |snapshot| && snapshot[j] == Entry(c, b);
    assert i == j;
  }

  /** A table that lists every pid once gives every pid one parent. */
  lemma SnapshotSingleParent(snapshot: seq<Entry>, ch: Children)
    requires DistinctPids(snapshot) && forall p :: Kids(ch, p) == ChildrenOf(snapshot, p)
    ensures SingleParent(ch)
  {
    forall a, b, c | c in Kids(ch, a) && c in Kids(ch, b)
      ensures a == b
    {
      OneParent(snapshot, a, b, c);
    }
    forall a, i, j | 0 <= i < j < |Kids(ch, a)|
      ensures Kids(ch, a)[i] != Kids(ch, a)[j]
    {
      assert Kids(ch, a) == ChildrenOf(snapshot, a);
      ChildrenDistinct(snapshot, a);
    }
  }

  // ----- Reachability

  ghost predicate IsPath(ch: Children, path: seq<Pid>) {
    path != [] && forall i :: 0 <= i < |path| - 1 ==> path[i + 1] in Kids(ch, path[i])
  }

  ghost predicate Reachable(ch: Children, a: Pid, b: Pid) {
    exists path :: IsPath(ch, path) && path[0] == a && path[|path| - 1] == b
  }

  lemma ReachesItself(ch: Children, a: Pid)
    ensures Reachable(ch, a, a)
  {
    assert IsPath(ch, [a]) && [a][0] == a;
  }

  lemma ReachesChild(ch: Children, a: Pid, b: Pid, c: Pid)
    requires Reachable(ch, a, b) && c in Kids(ch, b)
    ensures Reachable(ch, a, c)
  {
    var path :| IsPath(ch, path) && path[0] == a && path[|path| - 1] == b;
    var longer := path + [c];
    assert IsPath(ch, longer) && longer[0] == a && longer[|longer| - 1] == c;
  }

  lemma {:induction false} PathStaysInside(ch: Children, path: seq<Pid>, inside: set<Pid>, n: nat)
    requires IsPath(ch, path) && path[0] in inside && n < |path|
    requires forall p, k :: p in inside && k in Kids(ch, p) ==> k in inside
    ensures path[n] in inside
  {
    if n > 0 {
      PathStaysInside(ch, path, inside, n - 1);
      assert path[n - 1 + 1] in Kids(ch, path[n - 1]);
    }
  }

  /** A set that holds a and is closed under children holds all that a reaches. */
  lemma ReachableInside(ch: Children, a: Pid, inside: set<Pid>)
    requires a in inside && forall p, k :: p in inside && k in Kids(ch, p) ==> k in inside
    ensures forall b :: Reachable(ch, a, b) ==> b in inside
  {
    forall b | Reachable(ch, a, b)
      ensures b in inside
    {
      var path :| IsPath(ch, path) && path[0] == a && path[|path| - 1] == b;
      PathStaysInside(ch, path, inside, |path| - 1);
    }
  }

  // ----- Recursive orders. avail holds the pids that are not ancestors of the one visited;
  // a pid that is its own ancestor is not entered again.

  /** Left-to-right post-order: children before parents. */
  function PostOrder(ch: Children, p: Pid, avail: set<Pid>): seq<Pid>
    decreases avail, 1, 0
  {
    if p !in avail then [] else PostOrderAll(ch, Kids(ch, p), avail - {p}) + [p]
  }

  function PostOrderAll(ch: Children, kids: seq<Pid>, avail: set<Pid>): seq<Pid>
    decreases avail, 2, |kids|
  {
    if kids == [] then [] else PostOrder(ch, kids[0], avail) + PostOrderAll(ch, kids[1..], avail)
  }

  /** Right-to-left pre-order, in which a stack visits. */
  function PreOrder(ch: Children, p: Pid, avail: set<Pid>): seq<Pid>
    decreases avail, 1, 0
  {
    if p !in avail then [] else [p] + PreOrderAll(ch, Kids(ch, p), avail - {p})
  }

  function PreOrderAll(ch: Children, kids: seq<Pid>, avail: set<Pid>): seq<Pid>
    decreases avail, 2, |kids|
  {
    if kids == [] then []
    else PreOrder(ch, kids[|kids| - 1], avail) + PreOrderAll(ch, kids[..|kids| - 1], avail)
  }

  function Reverse(s: seq<Pid>): (r: seq<Pid>)
    ensures |r| == |s| && forall i :: 0 <= i < |s| ==> r[i] == s[|s| - 1 - i]
  {
    seq(|s|, i requires 0 <= i < |s| => s[|s| - 1 - i])
  }

  lemma ReverseConcat(a: seq<Pid>, b: seq<Pid>)
    ensures Reverse(a + b) == Reverse(b) + Reverse(a)
  {
  }

  lemma {:induction false} PostOrderAllConcat(ch: Children, a: seq<Pid>, b: seq<Pid>, avail: set<Pid>)
    ensures PostOrderAll(ch, a + b, avail) == PostOrderAll(ch, a, avail) + PostOrderAll(ch, b, avail)
    decreases |a|
  {
    if a == [] {
      assert a + b == b;
    } else {
      assert (a + b)[0] == a[0] && (a + b)[1..] == a[1..] + b;
      PostOrderAllConcat(ch, a[1..], b, avail);
    }
  }

  /** The reversed right-to-left pre-order is the left-to-right post-order. */
  lemma {:induction false} ReversedPreOrder(ch: Children, p: Pid, avail: set<Pid>)
    ensures Reverse(PreOrder(ch, p, avail)) == PostOrder(ch, p, avail)
    decreases avail, 1, 0
  {
    if p in avail {
      ReversedPreOrderAll(ch, Kids(ch, p), avail - {p});
      ReverseConcat([p], PreOrderAll(ch, Kids(ch, p), avail - {p}));
      assert Reverse([p]) == [p];
    }
  }

  lemma {:induction false} ReversedPreOrderAll(ch: Children, kids: seq<Pid>, avail: set<Pid>)
    ensures Reverse(PreOrderAll(ch, kids, avail)) == PostOrderAll(ch, kids, avail)
    decreases avail, 2, |kids|
  {
    if kids != [] {
      var init, last := kids[..|kids| - 1], kids[|kids| - 1];
      ReversedPreOrder(ch, last, avail);
      ReversedPreOrderAll(ch, init, avail);
      ReverseConcat(PreOrder(ch, last, avail), PreOrderAll(ch, init, avail));
      PostOrderAllConcat(ch, init, [last], avail);
      assert kids == init + [last];
      assert [last][1..] == [];
      assert PostOrderAll(ch, [last], avail) == PostOrder(ch, last, avail) + PostOrderAll(ch, [], avail);
    }
  }

  // ----- The iterative traversal

  /** Every pid of the map, and the root. */
  function AllPids(ch: Children, root: Pid): set<Pid> {
    {root} + (set p, k | p in ch && k in ch[p] :: k)
  }

  /** What a stack, popped from its end, still has to visit. */
  function Rest(ch: Children, stack: seq<Pid>, avails: seq<set<Pid>>): seq<Pid>
    requires |stack| == |avails|
  {
    if stack == [] then []
    else
      var n := |stack| - 1;
      PreOrder(ch, stack[n], avails[n]) + Rest(ch, stack[..n], avails[..n])
  }

  lemma RestOfTop(ch: Children, stack: seq<Pid>, avails: seq<set<Pid>>, x: Pid, avail: set<Pid>)
    requires |stack| == |avails|
    ensures Rest(ch, stack + [x], avails + [avail]) == PreOrder(ch, x, avail) + Rest(ch, stack, avails)
  {
    assert (stack + [x])[..|stack|] == stack && (avails + [avail])[..|stack|] == avails;
  }

  lemma {:induction false} RestOfPushed(ch: Children, stack: seq<Pid>, avails: seq<set<Pid>>, kids: seq<Pid>, avail: set<Pid>)
    requires |stack| == |avails|
    ensures Rest(ch, stack + kids, avails + Repeat(avail, |kids|)) ==
            PreOrderAll(ch, kids, avail) + Rest(ch, stack, avails)
    decreases |kids|
  {
    if kids == [] {
      assert stack + kids == stack && avails + Repeat(avail, 0) == avails;
    } else {
      var n := |kids| - 1;
      RestOfPushed(ch, stack, avails, kids[..n], avail);
      assert stack + kids == (stack + kids[..n]) + [kids[n]];
      assert avails + Repeat(avail, n + 1) == (avails + Repeat(avail, n)) + [avail];
      RestOfTop(ch, stack + kids[..n], avails + Repeat(avail, n), kids[n], avail);
      ConcatAssoc(PreOrder(ch, kids[n], avail), PreOrderAll(ch, kids[..n], avail), Rest(ch, stack, avails));
    }
  }

  function Repeat<T>(x: T, n: nat): (s: seq<T>)
    ensures |s| == n && forall i :: 0 <= i < n ==> s[i] == x
  {
    seq(n, i => x)
  }

  ghost predicate NoRepeats(s: seq<Pid>) {
    forall i, j :: 0 <= i < j < |s| ==> s[i] != s[j]
  }

  ghost predicate HasParentIn(ch: Children, p: Pid, s: set<Pid>) {
    exists q :: q in s && p in Kids(ch, q)
  }

  ghost predicate ParentBefore(ch: Children, order: seq<Pid>, i: nat)
    requires i < |order|
  {
    exists j :: 0 <= j < i && order[i] in Kids(ch, order[j])
  }

  /** Every pid but the first comes after one of its parents. */
  ghost predicate ParentsFirst(ch: Children, order: seq<Pid>) {
    forall i :: 0 < i < |order| ==> ParentBefore(ch, order, i)
  }

  /** What is on the stack belongs to the tree and, but for the root at the start, has a
      visited parent. */
  ghost predicate Pending(ch: Children, root: Pid, visited: set<Pid>, stack: seq<Pid>) {
    forall k :: 0 <= k < |stack| ==>
                  && stack[k] in AllPids(ch, root) && Reachable(ch, root, stack[k])
                  && (visited != {} ==> HasParentIn(ch, stack[k], visited))
  }

  /** Children of visited pids are visited or on the stack. */
  ghost predicate Covered(ch: Children, visited: set<Pid>, stack: seq<Pid>) {
    forall p, k :: p in visited && k in Kids(ch, p) ==> k in visited || k in stack
  }

  ghost predicate Visited(ch: Children, root: Pid, order: seq<Pid>, visited: set<Pid>) {
    && (forall p :: p in visited <==> p in order)
    && NoRepeats(order) && ParentsFirst(ch, order)
    && visited <= AllPids(ch, root)
    && (forall p :: p in visited ==> Reachable(ch, root, p))
  }

  /** What the traversal keeps in any snapshot. */
  ghost predicate Explored(ch: Children, root: Pid, order: seq<Pid>, visited: set<Pid>, stack: seq<Pid>) {
    && Visited(ch, root, order, visited)
    && (if order == [] then visited == {} && stack == [root] else visited != {} && order[0] == root)
    && Pending(ch, root, visited, stack)
    && Covered(ch, visited, stack)
  }

  /** The ancestors of what is on the stack were visited, and the root is one of them. */
  ghost predicate AncestorsVisited(all: set<Pid>, root: Pid, visited: set<Pid>, avails: seq<set<Pid>>) {
    forall k :: 0 <= k < |avails| ==> all - avails[k] <= visited && (visited != {} ==> root !in avails[k])
  }

  /** Only the root can be on the stack after it was visited, or twice. */
  ghost predicate OnlyRootAgain(root: Pid, visited: set<Pid>, stack: seq<Pid>) {
    && (forall k :: 0 <= k < |stack| && stack[k] != root ==> stack[k] !in visited)
    && (forall j, k :: 0 <= j < k < |stack| && stack[j] == stack[k] ==> stack[j] == root)
  }

  ghost predicate VisitedHaveParents(ch: Children, root: Pid, visited: set<Pid>) {
    forall p :: p in visited && p != root ==> HasParentIn(ch, p, visited)
  }

  /** What it keeps besides when every pid has one parent. */
  ghost predicate Tracked(ch: Children, root: Pid, visited: set<Pid>, stack: seq<Pid>, avails: seq<set<Pid>>) {
    && |avails| == |stack|
    && AncestorsVisited(AllPids(ch, root), root, visited, avails)
    && OnlyRootAgain(root, visited, stack)
    && VisitedHaveParents(ch, root, visited)
  }

  lemma KidsAreListed(ch: Children, root: Pid, p: Pid, k: Pid)
    requires k in Kids(ch, p)
    ensures k in AllPids(ch, root)
  {
  }

  // One pid x is popped from the end of the stack, over the stack below.

  lemma VisitedGrows(ch: Children, root: Pid, order: seq<Pid>, visited: set<Pid>, x: Pid)
    requires Visited(ch, root, order, visited) && x !in visited
    requires x in AllPids(ch, root) && Reachable(ch, root, x)
    requires order != [] ==> HasParentIn(ch, x, visited)
    ensures Visited(ch, root, order + [x], visited + {x})
  {
    var order' := order + [x];
    forall i | 0 < i < |order'|
      ensures ParentBefore(ch, order', i)
    {
      if i < |order| {
        assert ParentBefore(ch, order, i);
        var j :| 0 <= j < i && order[i] in Kids(ch, order[j]);
        assert order'[j] == order[j];
      } else {
        var q :| q in visited && x in Kids(ch, q);
        var j :| 0 <= j < |order| && order[j] == q;
        assert order'[j] == q;
      }
    }
  }

  lemma ParentStays(ch: Children, p: Pid, s: set<Pid>, t: set<Pid>)
    requires HasParentIn(ch, p, s) && s <= t
    ensures HasParentIn(ch, p, t)
  {
  }

  lemma PendingGrows(ch: Children, root: Pid, visited: set<Pid>, below: seq<Pid>, x: Pid)
    requires Pending(ch, root, visited, below) && Reachable(ch, root, x)
    requires visited == {} ==> below == []
    ensures Pending(ch, root, visited + {x}, below + Kids(ch, x))
  {
    var stack' := below + Kids(ch, x);
    forall k | 0 <= k < |stack'|
      ensures stack'[k] in AllPids(ch, root) && Reachable(ch, root, stack'[k])
      ensures HasParentIn(ch, stack'[k], visited + {x})
    {
      if k < |below| {
        ParentStays(ch, below[k], visited, visited + {x});
      } else {
        var c := Kids(ch, x)[k - |below|];
        assert stack'[k] == c && x in visited + {x};
        KidsAreListed(ch, root, x, c);
        ReachesChild(ch, root, x, c);
      }
    }
  }

  lemma CoveredGrows(ch: Children, visited: set<Pid>, below: seq<Pid>, x: Pid)
    requires Covered(ch, visited, below + [x])
    ensures Covered(ch, visited + {x}, below + Kids(ch, x))
  {
    forall p, k | p in visited + {x} && k in Kids(ch, p)
      ensures k in visited + {x} || k in below + Kids(ch, x)
    {
      if p in visited && k !in visited {
        assert k in below + [x];
      }
    }
  }

  /** The top of the stack is visited for the first time. */
  lemma ExploredVisit(ch: Children, root: Pid, order: seq<Pid>, visited: set<Pid>, below: seq<Pid>, x: Pid)
    requires Explored(ch, root, order, visited, below + [x]) && x !in visited
    ensures Explored(ch, root, order + [x], visited + {x}, below + Kids(ch, x))
  {
    var stack := below + [x];
    assert stack[|below|] == x;
    VisitedGrows(ch, root, order, visited, x);
    assert Pending(ch, root, visited, below) by {
      assert forall k :: 0 <= k < |below| ==> below[k] == stack[k];
    }
    PendingGrows(ch, root, visited, below, x);
    CoveredGrows(ch, visited, below, x);
  }

  /** The top of the stack was visited before. */
  lemma ExploredSkip(ch: Children, root: Pid, order: seq<Pid>, visited: set<Pid>, below: seq<Pid>, x: Pid)
    requires Explored(ch, root, order, visited, below + [x]) && x in visited
    ensures Explored(ch, root, order, visited, below)
  {
    var stack := below + [x];
    assert forall k :: 0 <= k < |below| ==> below[k] == stack[k];
    assert forall k :: k in stack && k != x ==> k in below;
  }

  lemma TrackedSkip(ch: Children, root: Pid, visited: set<Pid>, below: seq<Pid>, x: Pid, avails: seq<set<Pid>>, avail: set<Pid>)
    requires Tracked(ch, root, visited, below + [x], avails + [avail]) && |avails| == |below| && x in visited
    ensures Tracked(ch, root, visited, below, avails) && x !in avail
  {
    var stack, all := below + [x], avails + [avail];
    assert stack[|below|] == x && all[|below|] == avail;
    assert forall k :: 0 <= k < |below| ==> below[k] == stack[k] && avails[k] == all[k];
  }

  /** With one parent each, a pid other than the root that was seen before has its parent
      among the visited. */
  lemma ParentSeen(ch: Children, root: Pid, visited: set<Pid>, stack: seq<Pid>, x: Pid, k: Pid)
    requires SingleParent(ch) && visited != {}
    requires Pending(ch, root, visited, stack) && VisitedHaveParents(ch, root, visited)
    requires k in Kids(ch, x) && k != root && (k in visited || k in stack)
    ensures x in visited
  {
    assert HasParentIn(ch, k, visited);
    var q :| q in visited && k in Kids(ch, q);
  }

  /** So the kids of a pid that is new are new, but for the root. */
  lemma KidsAreNew(ch: Children, root: Pid, visited: set<Pid>, below: seq<Pid>, x: Pid)
    requires SingleParent(ch) && x !in visited
    requires Pending(ch, root, visited, below + [x]) && VisitedHaveParents(ch, root, visited)
    requires visited == {} ==> below == [] && x == root
    ensures forall k :: k in Kids(ch, x) && k != root ==> k !in visited && k !in below && k != x
  {
    forall k | k in Kids(ch, x) && k != root
      ensures k !in visited && k !in below + [x]
    {
      if visited != {} && (k in visited || k in below + [x]) {
        ParentSeen(ch, root, visited, below + [x], x, k);
      }
    }
    assert x in below + [x] && forall k :: k in below ==> k in below + [x];
  }

  lemma AncestorsGrow(all: set<Pid>, root: Pid, visited: set<Pid>, x: Pid, avails: seq<set<Pid>>, avail: set<Pid>, n: nat)
    requires AncestorsVisited(all, root, visited, avails + [avail])
    requires visited == {} ==> avails == [] && x == root
    ensures AncestorsVisited(all, root, visited + {x}, avails + Repeat(avail - {x}, n))
    ensures all - avail <= visited
  {
    assert (avails + [avail])[|avails|] == avail;
    assert forall k :: 0 <= k < |avails| ==> (avails + [avail])[k] == avails[k];
    var avails' := avails + Repeat(avail - {x}, n);
    forall k | 0 <= k < |avails'|
      ensures all - avails'[k] <= visited + {x} && root !in avails'[k]
    {
      assert avails'[k] == if k < |avails| then avails[k] else avail - {x};
    }
  }

  /** New kids do not repeat each other, nor anything but the root below them. */
  lemma StackGrows(root: Pid, visited: set<Pid>, below: seq<Pid>, x: Pid, kids: seq<Pid>)
    requires OnlyRootAgain(root, visited, below + [x])
    requires NoRepeats(kids)
    requires forall k :: k in kids && k != root ==> k !in visited && k !in below && k != x
    ensures OnlyRootAgain(root, visited + {x}, below + kids)
  {
    var s := below + kids;
    assert (below + [x])[|below|] == x;
    assert forall k :: 0 <= k < |below| ==> (below + [x])[k] == below[k] == s[k];
    forall k | |below| <= k < |s|
      ensures s[k] in kids && s[k] == kids[k - |below|]
    {
    }
  }

  lemma TrackedVisit(ch: Children, root: Pid, visited: set<Pid>, below: seq<Pid>, x: Pid, avails: seq<set<Pid>>, avail: set<Pid>)
    requires SingleParent(ch) && |avails| == |below| && x !in visited && x in AllPids(ch, root)
    requires Pending(ch, root, visited, below + [x]) && Tracked(ch, root, visited, below + [x], avails + [avail])
    requires visited == {} ==> below == [] && x == root
    requires visited != {} ==> HasParentIn(ch, x, visited)
    ensures x in avail
    ensures Tracked(ch, root, visited + {x}, below + Kids(ch, x), avails + Repeat(avail - {x}, |Kids(ch, x)|))
  {
    var kids := Kids(ch, x);
    KidsAreNew(ch, root, visited, below, x);
    StackGrows(root, visited, below, x, kids);
    AncestorsGrow(AllPids(ch, root), root, visited, x, avails, avail, |kids|);
    forall p | p in visited + {x} && p != root
      ensures HasParentIn(ch, p, visited + {x})
    {
      ParentStays(ch, p, visited, visited + {x});
    }
  }

  lemma SkipTop(ch: Children, root: Pid, visited: set<Pid>, below: seq<Pid>, x: Pid, avails: seq<set<Pid>>)
    requires Tracked(ch, root, visited, below + [x], avails) && x in visited
    ensures var n := |below|;
            && Tracked(ch, root, visited, below, avails[..n])
            && Rest(ch, below + [x], avails) == Rest(ch, below, avails[..n])
  {
    var n := |below|;
    assert avails == avails[..n] + [avails[n]];
    TrackedSkip(ch, root, visited, below, x, avails[..n], avails[n]);
    RestOfTop(ch, below, avails[..n], x, avails[n]);
  }

  /** Visiting the top moves its pid from what is left to what is done. */
  lemma RestAfterVisit(ch: Children, order: seq<Pid>, below: seq<Pid>, x: Pid, lower: seq<set<Pid>>, avail: set<Pid>)
    requires |lower| == |below| && x in avail
    ensures var kids := Kids(ch, x);
            order + Rest(ch, below + [x], lower + [avail]) ==
            (order + [x]) + Rest(ch, below + kids, lower + Repeat(avail - {x}, |kids|))
  {
    var kids := Kids(ch, x);
    RestOfTop(ch, below, lower, x, avail);
    RestOfPushed(ch, below, lower, kids, avail - {x});
    var done, left := PreOrderAll(ch, kids, avail - {x}), Rest(ch, below, lower);
    ConcatAssoc([x], done, left);
    ConcatAssoc(order, [x], done + left);
  }

  lemma VisitTop(ch: Children, root: Pid, order: seq<Pid>, visited: set<Pid>, below: seq<Pid>, x: Pid, avails: seq<set<Pid>>)
    requires SingleParent(ch) && Explored(ch, root, order, visited, below + [x]) && x !in visited
    requires Tracked(ch, root, visited, below + [x], avails)
    ensures var n, kids := |below|, Kids(ch, x);
            var avails' := avails[..n] + Repeat(avails[n] - {x}, |kids|);
            && Tracked(ch, root, visited + {x}, below + kids, avails')
            && order + Rest(ch, below + [x], avails) == (order + [x]) + Rest(ch, below + kids, avails')
  {
    var n := |below|;
    assert avails == avails[..n] + [avails[n]] && (below + [x])[n] == x;
    TrackedVisit(ch, root, visited, below, x, avails[..n], avails[n]);
    RestAfterVisit(ch, order, below, x, avails[..n], avails[n]);
  }

  /** The loop invariant of the traversal. */
  ghost predicate Traversing(ch: Children, root: Pid, order: seq<Pid>, visited: set<Pid>, stack: seq<Pid>, avails: seq<set<Pid>>) {
    && Explored(ch, root, order, visited, stack)
    && (SingleParent(ch) ==>
          && Tracked(ch, root, visited, stack, avails)
          && order + Rest(ch, stack, avails) == PreOrder(ch, root, AllPids(ch, root)))
  }

  lemma TraversalStarts(ch: Children, root: Pid)
    ensures Traversing(ch, root, [], {}, [root], [AllPids(ch, root)])
  {
    ReachesItself(ch, root);
    assert [root][..0] == [] && [AllPids(ch, root)][..0] == [];
  }

  lemma TraversalSkips(ch: Children, root: Pid, order: seq<Pid>, visited: set<Pid>, below: seq<Pid>, x: Pid, avails: seq<set<Pid>>)
    returns (avails': seq<set<Pid>>)
    requires Traversing(ch, root, order, visited, below + [x], avails) && x in visited
    ensures Traversing(ch, root, order, visited, below, avails')
  {
    ExploredSkip(ch, root, order, visited, below, x);
    avails' := [];
    if SingleParent(ch) {
      SkipTop(ch, root, visited, below, x, avails);
      avails' := avails[..|below|];
    }
  }

  lemma TraversalVisits(ch: Children, root: Pid, order: seq<Pid>, visited: set<Pid>, below: seq<Pid>, x: Pid, avails: seq<set<Pid>>)
    returns (avails': seq<set<Pid>>)
    requires Traversing(ch, root, order, visited, below + [x], avails) && x !in visited
    ensures x in AllPids(ch, root)
    ensures Traversing(ch, root, order + [x], visited + {x}, below + Kids(ch, x), avails')
  {
    assert (below + [x])[|below|] == x;
    ExploredVisit(ch, root, order, visited, below, x);
    avails' := [];
    if SingleParent(ch) {
      VisitTop(ch, root, order, visited, below, x, avails);
      avails' := avails[..|below|] + Repeat(avails[|below|] - {x}, |Kids(ch, x)|);
    }
  }

  lemma TraversalDone(ch: Children, root: Pid, order: seq<Pid>, visited: set<Pid>, avails: seq<set<Pid>>)
    requires Traversing(ch, root, order, visited, [], avails)
    ensures NoRepeats(order)
    ensures forall p :: p in order <==> Reachable(ch, root, p)
    ensures order != [] && order[0] == root && ParentsFirst(ch, order)
    ensures SingleParent(ch) ==> order == PreOrder(ch, root, AllPids(ch, root))
  {
    assert order[0] in visited;
    ReachableInside(ch, root, visited);
  }

  method Pop(stack: seq<Pid>) returns (below: seq<Pid>, top: Pid)
    requires stack != []
    ensures stack == below + [top]
  {
    below, top := stack[..|stack| - 1], stack[|stack| - 1];
  }

  /** Collect the tree under root as the daemon does: push the children, pop from the end,
      skip what was visited. */
  method CollectOrder(ch: Children, root: Pid) returns (order: seq<Pid>)
    ensures NoRepeats(order)
    ensures forall p :: p in order <==> Reachable(ch, root, p)
    ensures order != [] && order[0] == root && ParentsFirst(ch, order)
    ensures SingleParent(ch) ==> order == PreOrder(ch, root, AllPids(ch, root))
  {
    order := [];
    var stack := [root];
    var visited: set<Pid> := {};
    ghost var all := AllPids(ch, root);
    ghost var avails := [all];
    TraversalStarts(ch, root);
    while stack != []
      invariant Traversing(ch, root, order, visited, stack, avails)
      decreases all - visited, |stack|
    {
      var below, pid := Pop(stack);
      if pid in visited {
        avails := TraversalSkips(ch, root, order, visited, below, pid, avails);
        stack := below;
      } else {
        avails := TraversalVisits(ch, root, order, visited, below, pid, avails);
        visited := visited + {pid};
        stack := below + Kids(ch, pid);
        order := order + [pid];
      }
    }
    TraversalDone(ch, root, order, visited, avails);
  }

  // ----- Signals

  /** Every pid but the root is signalled before its parent. */
  ghost predicate ChildrenFirst(ch: Children, root: Pid, sent: seq<Pid>) {
    forall i, j :: 0 <= i < |sent| && 0 <= j < |sent| && sent[i] != root && sent[i] in Kids(ch, sent[j]) ==> i < j
  }

  /** Signal the pids from the last to the first; alive are those that a signal reaches. */
  method SignalReversed(order: seq<Pid>, alive: set<Pid>) returns (sent: seq<Pid>, signaled: seq<Pid>)
    ensures sent == Reverse(order)
    ensures forall p :: p in signaled <==> p in sent && p in alive
  {
    sent, signaled := [], [];
    for i := 0 to |order|
      invariant sent == Reverse(order)[..i]
      invariant forall p :: p in signaled <==> p in sent && p in alive
    {
      var pid := order[|order| - 1 - i];
      sent := sent + [pid];
      if pid in alive {
        signaled := signaled + [pid];
      }
    }
  }

  /** Send a signal to the tree under root, children before parents. */
  method SignalTree(ch: Children, root: Pid, alive: set<Pid>) returns (sent: seq<Pid>, signaled: seq<Pid>)
    ensures NoRepeats(sent)
    ensures forall p :: p in sent <==> Reachable(ch, root, p)
    ensures forall p :: p in signaled <==> Reachable(ch, root, p) && p in alive
    ensures SingleParent(ch) ==> sent == PostOrder(ch, root, AllPids(ch, root)) && ChildrenFirst(ch, root, sent)
  {
    var order := CollectOrder(ch, root);
    sent, signaled := SignalReversed(order, alive);
    ReversedSame(order);
    if SingleParent(ch) {
      ReversedPreOrder(ch, root, AllPids(ch, root));
      ReversedParentsFirst(ch, root, order);
    }
  }

  lemma ReversedSame(s: seq<Pid>)
    ensures forall p :: p in Reverse(s) <==> p in s
    ensures NoRepeats(s) ==> NoRepeats(Reverse(s))
  {
    forall p | p in s
      ensures p in Reverse(s)
    {
      var i :| 0 <= i < |s| && s[i] == p;
      assert Reverse(s)[|s| - 1 - i] == p;
    }
  }

  lemma ParentIsEarlier(ch: Children, order: seq<Pid>, c: nat, p: nat)
    requires SingleParent(ch) && NoRepeats(order) && ParentsFirst(ch, order)
    requires 0 < c < |order| && p < |order| && order[c] in Kids(ch, order[p])
    ensures p < c
  {
    assert ParentBefore(ch, order, c);
    var q :| 0 <= q < c && order[c] in Kids(ch, order[q]);
    assert order[q] == order[p];
  }

  lemma ReversedParentsFirst(ch: Children, root: Pid, order: seq<Pid>)
    requires SingleParent(ch) && NoRepeats(order) && ParentsFirst(ch, order)
    requires order != [] && order[0] == root
    ensures ChildrenFirst(ch, root, Reverse(order))
  {
    var sent := Reverse(order);
    forall i, j | 0 <= i < |sent| && 0 <= j < |sent| && sent[i] != root && sent[i] in Kids(ch, sent[j])
      ensures i < j
    {
      ParentIsEarlier(ch, order, |order| - 1 - i, |order| - 1 - j);
    }
  }
}

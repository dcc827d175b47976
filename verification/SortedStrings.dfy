/** Sets of strings as sorted lists. */
module SortedStrings {

  predicate LexLeq(a: string, b: string) {
    a == [] || (b != [] && (a[0] < b[0] || (a[0] == b[0] && LexLeq(a[1..], b[1..]))))
  }

  lemma {:induction false} LexTotal(a: string, b: string)
    ensures LexLeq(a, b) || LexLeq(b, a)
    decreases |a|
  {
    if a != [] && b != [] && a[0] == b[0] {
      LexTotal(a[1..], b[1..]);
    }
  }

  lemma {:induction false} LexAntisymmetric(a: string, b: string)
    requires LexLeq(a, b) && LexLeq(b, a)
    ensures a == b
    decreases |a|
  {
    if a != [] && b != [] {
      LexAntisymmetric(a[1..], b[1..]);
      assert a == [a[0]] + a[1..] && b == [b[0]] + b[1..];
    }
  }

  lemma {:induction false} LexTransitive(a: string, b: string, c: string)
    requires LexLeq(a, b) && LexLeq(b, c)
    ensures LexLeq(a, c)
    decreases |a|
  {
    if a != [] && b != [] && c != [] && a[0] == b[0] == c[0] {
      LexTransitive(a[1..], b[1..], c[1..]);
    }
  }

  /** The strings agree before i, and the first has the smaller character there. */
  predicate DiffersAt(a: string, b: string, i: nat) {
    i < |a| && i < |b| && a[..i] == b[..i] && a[i] < b[i]
  }

  lemma FirstNotLarger(a: string, b: string, i: nat)
    requires DiffersAt(a, b, i)
    ensures a != [] && b != [] && a[0] <= b[0]
  {
    if i > 0 {
      assert a[0] == a[..i][0] && b[0] == b[..i][0];
    }
  }

  lemma DiffersAtRest(a: string, b: string, i: nat)
    requires a != [] && b != [] && a[0] == b[0]
    ensures DiffersAt(a[1..], b[1..], i) <==> DiffersAt(a, b, i + 1)
  {
    if i < |a| && i < |b| {
      assert a[..i + 1] == [a[0]] + a[1..][..i] && b[..i + 1] == [b[0]] + b[1..][..i];
      assert a[1..][..i] == a[..i + 1][1..] && b[1..][..i] == b[..i + 1][1..];
    }
  }

  /** The order is that of the first character in which two strings differ; a string comes before
      the longer ones that start with it. */
  lemma {:induction false} LexLeqIff(a: string, b: string)
    ensures LexLeq(a, b) <==> a <= b || exists i: nat :: DiffersAt(a, b, i)
    decreases |a|
  {
    forall i: nat | DiffersAt(a, b, i)
      ensures a != [] && b != [] && a[0] <= b[0]
    {
      FirstNotLarger(a, b, i);
    }
    if a != [] && b != [] {
      if a[0] == b[0] {
        LexLeqIff(a[1..], b[1..]);
        assert a == [a[0]] + a[1..] && b == [b[0]] + b[1..];
        LaterDiffers(a, b);
      } else if a[0] < b[0] {
        assert DiffersAt(a, b, 0);
      }
    }
  }

  lemma LaterDiffers(a: string, b: string)
    requires a != [] && b != [] && a[0] == b[0]
    ensures (exists i: nat :: DiffersAt(a, b, i)) <==> exists i: nat :: DiffersAt(a[1..], b[1..], i)
  {
    if i: nat :| DiffersAt(a, b, i) {
      DiffersAtRest(a, b, i - 1);
    }
    if i: nat :| DiffersAt(a[1..], b[1..], i) {
      DiffersAtRest(a, b, i);
    }
  }

  predicate Increasing(ds: seq<string>) {
    forall i, j :: 0 <= i < j < |ds| ==> LexLeq(ds[i], ds[j]) && ds[i] != ds[j]
  }

  /** The strings of the set in increasing order, each once. */
  predicate SortsTo(strings: set<string>, ds: seq<string>) {
    Increasing(ds) && (forall d <- strings :: d in ds) && forall i :: 0 <= i < |ds| ==> ds[i] in strings
  }

  function InsertInto(d: string, ds: seq<string>): seq<string> {
    if ds == [] || LexLeq(d, ds[0]) then [d] + ds else [ds[0]] + InsertInto(d, ds[1..])
  }

  lemma {:induction false} InsertMembers(d: string, ds: seq<string>)
    ensures forall x :: x in InsertInto(d, ds) <==> x == d || x in ds
    decreases |ds|
  {
    if ds != [] && !LexLeq(d, ds[0]) {
      InsertMembers(d, ds[1..]);
      assert ds == [ds[0]] + ds[1..];
    }
  }

  lemma InFrontIncreasing(d: string, ds: seq<string>)
    requires Increasing(ds) && forall x <- ds :: LexLeq(d, x) && x != d
    ensures Increasing([d] + ds)
  {
    var all := [d] + ds;
    forall i, j | 0 <= i < j < |all|
      ensures LexLeq(all[i], all[j]) && all[i] != all[j]
    {
      assert all[j] == ds[j - 1] && all[j] in ds;
    }
  }

  lemma {:induction false} InsertIncreasing(d: string, ds: seq<string>)
    requires Increasing(ds) && d !in ds
    ensures Increasing(InsertInto(d, ds))
    decreases |ds|
  {
    if ds == [] {
    } else if LexLeq(d, ds[0]) {
      forall x | x in ds
        ensures LexLeq(d, x) && x != d
      {
        if x != ds[0] {
          LexTransitive(d, ds[0], x);
        }
      }
      InFrontIncreasing(d, ds);
    } else {
      var rest := ds[1..];
      InsertIncreasing(d, rest);
      InsertMembers(d, rest);
      LexTotal(d, ds[0]);
      InFrontIncreasing(ds[0], InsertInto(d, rest));
    }
  }

  lemma InsertSorts(strings: set<string>, d: string, ds: seq<string>)
    requires SortsTo(strings, ds) && d !in strings
    ensures SortsTo(strings + {d}, InsertInto(d, ds))
  {
    InsertMembers(d, ds);
    InsertIncreasing(d, ds);
    var all := InsertInto(d, ds);
    forall i | 0 <= i < |all|
      ensures all[i] in strings + {d}
    {
      assert all[i] in all;
    }
  }

  ghost function Sorted(strings: set<string>): (ds: seq<string>)
    ensures SortsTo(strings, ds)
  {
    if strings == {} then [] else
      var d :| d in strings;
      var rest := Sorted(strings - {d});
      InsertSorts(strings - {d}, d, rest);
      assert strings - {d} + {d} == strings;
      InsertInto(d, rest)
  }

  lemma HeadMember(strings: set<string>, ds: seq<string>)
    requires SortsTo(strings, ds) && ds != []
    ensures ds[0] in strings
  {
  }

  /** There is one such list. */
  lemma {:induction false} SortedUnique(strings: set<string>, xs: seq<string>, ys: seq<string>)
    requires SortsTo(strings, xs) && SortsTo(strings, ys)
    ensures xs == ys
    decreases |xs|
  {
    if xs == [] {
      if ys != [] {
        HeadMember(strings, ys);
      }
    } else {
      assert xs[0] in strings && xs[0] in ys;
      assert ys[0] in strings && ys[0] in xs;
      LexAntisymmetricHeads(xs, ys);
      var smaller := strings - {xs[0]};
      TailSorts(strings, xs);
      TailSorts(strings, ys);
      SortedUnique(smaller, xs[1..], ys[1..]);
      assert xs == [xs[0]] + xs[1..] && ys == [ys[0]] + ys[1..];
    }
  }

  lemma LexAntisymmetricHeads(xs: seq<string>, ys: seq<string>)
    requires xs != [] && ys != [] && Increasing(xs) && Increasing(ys) && xs[0] in ys && ys[0] in xs
    ensures xs[0] == ys[0]
  {
    if xs[0] != ys[0] {
      LexAntisymmetric(xs[0], ys[0]);
    }
  }

  lemma TailSorts(strings: set<string>, ds: seq<string>)
    requires SortsTo(strings, ds) && ds != []
    ensures SortsTo(strings - {ds[0]}, ds[1..])
  {
    forall i | 0 <= i < |ds[1..]|
      ensures ds[1..][i] in strings - {ds[0]}
    {
      assert ds[1..][i] == ds[i + 1];
    }
    forall d | d in strings - {ds[0]}
      ensures d in ds[1..]
    {
      assert d in ds;
      assert ds == [ds[0]] + ds[1..];
    }
  }

  /** Collects the set in whatever order it is visited, keeping the list in order. */
  method SortStrings(strings: set<string>) returns (ds: seq<string>)
    ensures SortsTo(strings, ds) && ds == Sorted(strings)
  {
    ds := [];
    var left := strings;
    while left != {}
      invariant left <= strings
      invariant SortsTo(strings - left, ds)
      decreases left
    {
      var d :| d in left;
      InsertSorts(strings - left, d, ds);
      ghost var before := left;
      left := left - {d};
      assert strings - left == (strings - before) + {d};
      ds := InsertInto(d, ds);
    }
    assert strings - left == strings;
    SortedUnique(strings, ds, Sorted(strings));
  }

  // ----- Lists that may repeat a string

  predicate Ordered(ss: seq<string>) {
    forall i, j :: 0 <= i < j < |ss| ==> LexLeq(ss[i], ss[j])
  }

  lemma {:induction false} InsertCounts(d: string, ss: seq<string>)
    ensures multiset(InsertInto(d, ss)) == multiset(ss) + multiset{d}
    decreases |ss|
  {
    if ss != [] && !LexLeq(d, ss[0]) {
      InsertCounts(d, ss[1..]);
      assert ss == [ss[0]] + ss[1..];
    }
  }

  lemma {:induction false} InsertOrdered(d: string, ss: seq<string>)
    requires Ordered(ss)
    ensures Ordered(InsertInto(d, ss))
    decreases |ss|
  {
    if ss == [] {
    } else if LexLeq(d, ss[0]) {
      forall j | 0 <= j < |ss|
        ensures LexLeq(d, ss[j])
      {
        if j > 0 {
          LexTransitive(d, ss[0], ss[j]);
        }
      }
      InFrontOrdered(d, ss);
    } else {
      LexTotal(d, ss[0]);
      InsertOrdered(d, ss[1..]);
      InsertMembers(d, ss[1..]);
      InFrontOrdered(ss[0], InsertInto(d, ss[1..]));
    }
  }

  lemma InFrontOrdered(d: string, ss: seq<string>)
    requires Ordered(ss) && forall x <- ss :: LexLeq(d, x)
    ensures Ordered([d] + ss)
  {
    var all := [d] + ss;
    forall i, j | 0 <= i < j < |all|
      ensures LexLeq(all[i], all[j])
    {
      assert all[j] == ss[j - 1] && all[j] in ss;
    }
  }

  /** Both sets in one ordered list; a string of both stands in it twice. */
  predicate SortsBoth(a: set<string>, b: set<string>, ss: seq<string>) {
    Ordered(ss) && multiset(ss) == multiset(a) + multiset(b)
  }

  lemma BothListed(a: set<string>, b: set<string>, ss: seq<string>)
    requires SortsBoth(a, b, ss)
    ensures forall s :: s in ss <==> s in a || s in b
  {
    forall s
      ensures s in ss <==> s in a || s in b
    {
      assert s in ss <==> s in multiset(ss);
    }
  }

  method SortBoth(a: set<string>, b: set<string>) returns (ss: seq<string>)
    ensures SortsBoth(a, b, ss)
  {
    ss := [];
    ss := InsertAll(a, ss);
    ss := InsertAll(b, ss);
  }

  method InsertAll(strings: set<string>, before: seq<string>) returns (ss: seq<string>)
    requires Ordered(before)
    ensures Ordered(ss) && multiset(ss) == multiset(before) + multiset(strings)
  {
    ss := before;
    var left := strings;
    while left != {}
      invariant left <= strings
      invariant Ordered(ss) && multiset(ss) + multiset(left) == multiset(before) + multiset(strings)
      decreases left
    {
      var s :| s in left;
      InsertCounts(s, ss);
      InsertOrdered(s, ss);
      assert multiset(left) == multiset(left - {s}) + multiset{s};
      left := left - {s};
      ss := InsertInto(s, ss);
    }
  }
}

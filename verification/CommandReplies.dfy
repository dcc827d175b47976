/** What Block, Unblock and Sync answer, and in which order the dynamic list keeps what is left. */
module CommandReplies {
  import opened BlocklistKeys
  import opened ControlState
  import opened DomainRuns

  function Domains(errors: seq<DomainError>): (ds: seq<Name>)
    ensures |ds| == |errors| && forall i :: 0 <= i < |errors| ==> ds[i] == errors[i].domain
  {
    seq(|errors|, i requires 0 <= i < |errors| => errors[i].domain)
  }

  lemma DomainsConcat(a: seq<DomainError>, b: seq<DomainError>)
    ensures Domains(a + b) == Domains(a) + Domains(b)
  {
  }

  ghost predicate AllFor(errors: seq<DomainError>, reason: MapError) {
    forall i :: 0 <= i < |errors| ==> errors[i].reason == reason
  }

  /** The first domain is reported in one of two lists, the others are reported in the rest of them. */
  lemma ReportedMore(added: seq<Name>, failed: seq<Name>, added': seq<Name>, failed': seq<Name>, ds: seq<Name>)
    requires ds != [] && ((added == [ds[0]] && failed == []) || (added == [] && failed == [ds[0]]))
    requires multiset(added') + multiset(failed') == multiset(ds[1..])
    ensures multiset(added + added') + multiset(failed + failed') == multiset(ds)
  {
    assert ds == [ds[0]] + ds[1..];
    assert [] + added' == added' && [] + failed' == failed';
  }

  /** Every given domain is reported once: as added, or as an error because the map is full. */
  lemma {:induction false} AddReportsEach(b: set<Key>, ds: seq<Name>)
    ensures var r := AddAll(Start(b), ds);
            multiset(r.added) + multiset(Domains(r.errors)) == multiset(ds) && AllFor(r.errors, MapFull)
    decreases |ds|
  {
    if ds != [] {
      var one := AddOne(Start(b), ds[0]);
      var r := AddAll(Start(one.blocklist), ds[1..]);
      AddAllStep(b, ds);
      AddReportsEach(one.blocklist, ds[1..]);
      DomainsConcat(one.errors, r.errors);
      AddOneReports(b, ds[0]);
      ReportedMore(one.added, Domains(one.errors), r.added, Domains(r.errors), ds);
    }
  }

  lemma AddOneReports(b: set<Key>, d: Name)
    ensures var one := AddOne(Start(b), d);
            && ((one.added == [d] && Domains(one.errors) == []) || (one.added == [] && Domains(one.errors) == [d]))
            && AllFor(one.errors, MapFull)
  {
    assert [] + [d] == [d];
    assert [] + [DomainError(d, MapFull)] == [DomainError(d, MapFull)];
  }

  lemma NoErrorsAllAdded(b: set<Key>, ds: seq<Name>)
    requires AddAll(Start(b), ds).errors == []
    ensures Names(AddAll(Start(b), ds).added) == Names(ds)
  {
    var added := AddAll(Start(b), ds).added;
    AddReportsEach(b, ds);
    assert multiset(added) == multiset(ds);
    forall d
      ensures d in added <==> d in ds
    {
      assert d in added <==> d in multiset(added);
      assert d in ds <==> d in multiset(ds);
    }
  }

  /** Adding succeeds exactly when the map can hold its keys and those of the domains. */
  lemma AddSucceedsIff(b: set<Key>, ds: seq<Name>)
    requires |b| <= 1024
    ensures AddAll(Start(b), ds).errors == [] <==> |b + KeysOf(Names(ds))| <= 1024
  {
    if AddAll(Start(b), ds).errors == [] {
      NoErrorsAllAdded(b, ds);
      AddAllKeys(b, ds);
      AddAllBounds(b, ds);
    }
    if |b + KeysOf(Names(ds))| <= 1024 {
      AddAllFits(b, ds);
    }
  }

  /** Removing succeeds exactly when every key is there, and none is asked for twice. */
  lemma {:induction false} RemoveSucceedsIff(r: Progress, ds: seq<Name>)
    ensures RemoveAll(r, ds).errors == r.errors <==>
            && (forall i :: 0 <= i < |ds| ==> KeyOf(ds[i]) in r.blocklist)
            && forall i, j :: 0 <= i < j < |ds| ==> KeyOf(ds[i]) != KeyOf(ds[j])
    ensures r.errors <= RemoveAll(r, ds).errors
    ensures AllFor(r.errors, KeyNotFound) ==> AllFor(RemoveAll(r, ds).errors, KeyNotFound)
    decreases |ds|
  {
    if ds != [] {
      var one, rest := RemoveOne(r, ds[0]), ds[1..];
      RemoveSucceedsIff(one, rest);
      RemoveRest(r.blocklist, one.blocklist, ds, rest);
    }
  }

  lemma RemoveRest(b: set<Key>, b': set<Key>, ds: seq<Name>, rest: seq<Name>)
    requires ds != [] && rest == ds[1..] && b' == b - {KeyOf(ds[0])}
    ensures (&& (forall i :: 0 <= i < |ds| ==> KeyOf(ds[i]) in b)
             && forall i, j :: 0 <= i < j < |ds| ==> KeyOf(ds[i]) != KeyOf(ds[j])) <==>
            && KeyOf(ds[0]) in b
            && (forall i :: 0 <= i < |rest| ==> KeyOf(rest[i]) in b')
            && forall i, j :: 0 <= i < j < |rest| ==> KeyOf(rest[i]) != KeyOf(rest[j])
  {
    assert forall i :: 0 <= i < |rest| ==> rest[i] == ds[i + 1];
    assert forall i :: 1 <= i < |ds| ==> ds[i] == rest[i - 1];
  }

  /** Block answers ok exactly when all its domains fit; otherwise the errors name, each once, the
      domains that were not added to the list. */
  lemma BlockAnswers(ds: seq<Name>, s: Shared)
    requires |s.blocklist| <= 1024
    ensures var (s', answer) := Exec(Block(ds), s);
            && (answer.ok <==> |s.blocklist + KeysOf(Names(ds))| <= 1024)
            && AllFor(answer.errors, MapFull)
            && multiset(s'.dynamicBlocked) + multiset(Domains(answer.errors)) ==
               multiset(s.dynamicBlocked) + multiset(ds)
  {
    AddSucceedsIff(s.blocklist, ds);
    AddReportsEach(s.blocklist, ds);
  }

  /** Unblock answers ok exactly when the map has all its domains and none is named twice. */
  lemma UnblockAnswers(ds: seq<Name>, s: Shared)
    ensures Exec(Unblock(ds), s).1.ok <==>
            && (forall i :: 0 <= i < |ds| ==> KeyOf(ds[i]) in s.blocklist)
            && forall i, j :: 0 <= i < j < |ds| ==> KeyOf(ds[i]) != KeyOf(ds[j])
    ensures AllFor(Exec(Unblock(ds), s).1.errors, KeyNotFound)
  {
    RemoveSucceedsIff(Start(s.blocklist), ds);
  }

  /** Sync answers ok exactly when its domains fit beside what clearing the list leaves. */
  lemma SyncAnswers(ds: seq<Name>, ns: seq<string>, s: Shared)
    requires |s.blocklist| <= 1024
    ensures var (s', answer) := Exec(Sync(ds, ns), s);
            && (answer.ok <==> |(s.blocklist - KeysOf(Names(s.dynamicBlocked))) + KeysOf(Names(ds))| <= 1024)
            && AllFor(answer.errors, MapFull)
            && multiset(s'.dynamicBlocked) + multiset(Domains(answer.errors)) == multiset(ds)
  {
    var b := s.blocklist - KeysOf(Names(s.dynamicBlocked));
    RemoveAllMeaning(Start(s.blocklist), s.dynamicBlocked);
    SubsetSize(b, s.blocklist);
    AddSucceedsIff(b, ds);
    AddReportsEach(b, ds);
  }

  /** What is left of the list is in the order of the list: of two parts, what is left of the
      first and then of the second; of one domain, itself unless it is named. */
  lemma {:induction false} RetainInOrder(a: seq<Name>, b: seq<Name>, ds: seq<Name>)
    ensures Retain(a + b, ds) == Retain(a, ds) + Retain(b, ds)
    ensures |a| == 1 ==> Retain(a, ds) == if a[0] in ds then [] else a
    decreases |a|
  {
    if a == [] {
      assert a + b == b;
    } else {
      assert (a + b)[0] == a[0] && (a + b)[1..] == a[1..] + b;
      RetainInOrder(a[1..], b, ds);
    }
  }
}

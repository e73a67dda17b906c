/** The tracker counts exactly, and tells its caller about every change. */
module TrackerProofs {
  import opened SortedKeys
  import opened TrackerSpec

  // ----- reference counts -----

  /** How often an app id occurs in all registered sources together. */
  ghost function Total(registered: map<Id, Source>, app: Id): nat {
    if registered == map[] then 0
    else
      assert registered.Keys != {};
      var k := MinKey(registered.Keys);
      multiset(registered[k].appIds)[app] + Total(registered - {k}, app)
  }

  lemma {:induction false} TotalWithout(registered: map<Id, Source>, k: Id, app: Id)
    requires k in registered
    ensures Total(registered, app) == multiset(registered[k].appIds)[app] + Total(registered - {k}, app)
  {
    var m := MinKey(registered.Keys);
    if m != k {
      TotalWithout(registered - {m}, k, app);
      assert m in (registered - {k}).Keys;
      TotalWithout(registered - {k}, m, app);
      assert registered - {m} - {k} == registered - {k} - {m};
    }
  }

  /** The registry's keys, and the counts per app id, are exactly those of the sources. */
  ghost predicate CountsExact(t: Tracker) {
    && (forall s :: s in t.registered ==> t.registered[s].id == s)
    && (forall a :: a in t.counts <==> Total(t.registered, a) > 0)
    && (forall a :: a in t.counts ==> t.counts[a] == Total(t.registered, a))
  }

  lemma RegisterKeepsCounts(t: Tracker, source: Source)
    requires CountsExact(t)
    ensures CountsExact(RegisterSource(t, source))
  {
    if source.id !in t.registered {
      forall a
        ensures Total(t.registered[source.id := source], a) == Total(t.registered, a) + multiset(source.appIds)[a]
      {
        TotalWith(t.registered, source, a);
      }
    }
  }

  lemma TotalWith(registered: map<Id, Source>, source: Source, app: Id)
    requires source.id !in registered
    ensures Total(registered[source.id := source], app) == Total(registered, app) + multiset(source.appIds)[app]
  {
    var more := registered[source.id := source];
    assert more - {source.id} == registered;
    TotalWithout(more, source.id, app);
  }

  /** In particular the count that the code looks up when unregistering is always there. */
  lemma UnregisterKeepsCounts(t: Tracker, id: Id)
    requires CountsExact(t)
    ensures id in t.registered ==> Covers(t.counts, t.registered[id].appIds)
    ensures CountsExact(UnregisterSource(t, id))
  {
    if id in t.registered {
      forall a
        ensures Total(t.registered, a) == Total(t.registered - {id}, a) + multiset(t.registered[id].appIds)[a]
      {
        TotalWithout(t.registered, id, a);
      }
    }
  }

  lemma CountOneMore(counts: map<Id, nat>, apps: seq<Id>, a: Id)
    ensures AddCounts(counts, apps + [a]) == AddCounts(counts, apps)[a := CountOf(AddCounts(counts, apps), a) + 1]
  {
    var more, less := AddCounts(counts, apps + [a]), AddCounts(counts, apps);
    forall x
      ensures x in more <==> x in less || x == a
      ensures x in more ==> more[x] == CountOf(less, x) + if x == a then 1 else 0
    {
      CountOneMoreAt(counts, apps, a, x);
    }
  }

  lemma CountOneMoreAt(counts: map<Id, nat>, apps: seq<Id>, a: Id, x: Id)
    ensures var more, less := AddCounts(counts, apps + [a]), AddCounts(counts, apps);
            && (x in more <==> x in less || x == a)
            && (x in more ==> more[x] == CountOf(less, x) + if x == a then 1 else 0)
  {
    OneMoreOccurrence(apps, a, x);
    assert x in apps + [a] <==> x in apps || x == a;
  }

  lemma OneMoreOccurrence(apps: seq<Id>, a: Id, x: Id)
    ensures multiset(apps + [a])[x] == multiset(apps)[x] + if x == a then 1 else 0
    ensures x !in apps ==> multiset(apps)[x] == 0
  {
    assert multiset(apps + [a]) == multiset(apps) + multiset{a};
  }

  /** An id is new exactly if its count becomes one. */
  lemma NewIfFirst(counts: map<Id, nat>, apps: seq<Id>, a: Id)
    requires forall x :: x in counts ==> counts[x] > 0
    ensures NewApps(counts, apps + [a]) ==
            NewApps(counts, apps) + if CountOf(AddCounts(counts, apps), a) == 0 then [a] else []
  {
    assert (apps + [a])[..|apps|] == apps;
    assert a in apps <==> multiset(apps)[a] > 0;
  }

  /** One round of counting. */
  lemma CountRound(before: map<Id, nat>, apps: seq<Id>, counts: map<Id, nat>, newAppIds: seq<Id>, a: Id)
    requires forall x :: x in before ==> before[x] > 0
    requires counts == AddCounts(before, apps) && newAppIds == NewApps(before, apps)
    ensures AddCounts(before, apps + [a]) == counts[a := CountOf(counts, a) + 1]
    ensures NewApps(before, apps + [a]) == if CountOf(counts, a) + 1 == 1 then newAppIds + [a] else newAppIds
  {
    CountOneMore(before, apps, a);
    NewIfFirst(before, apps, a);
  }

  /** Each id of `apps` is counted at least as often as it occurs there. */
  ghost predicate Covers(counts: map<Id, nat>, apps: seq<Id>) {
    forall a :: a in apps ==> a in counts && counts[a] >= multiset(apps)[a]
  }

  /** One occurrence less: the count to look up is there, and the id goes when it was the last. */
  lemma CountOneLess(counts: map<Id, nat>, apps: seq<Id>, i: nat)
    requires i < |apps| && Covers(counts, apps)
    ensures var c := SubtractCounts(counts, apps[..i]);
            && apps[i] in c
            && SubtractCounts(counts, apps[..i + 1]) ==
               if c[apps[i]] == 1 then c - {apps[i]} else c[apps[i] := c[apps[i]] - 1]
  {
    var a, c, c' := apps[i], SubtractCounts(counts, apps[..i]), SubtractCounts(counts, apps[..i + 1]);
    assert a in apps && a in counts && counts[a] >= multiset(apps)[a];
    OccurrencesUpTo(apps, i, a);
    forall x
      ensures x in c' <==> x in c && (x == a ==> c[a] > 1)
      ensures x in c' ==> c'[x] == c[x] - if x == a then 1 else 0
    {
      OccurrencesUpTo(apps, i, x);
    }
  }

  lemma OccurrencesUpTo(apps: seq<Id>, i: nat, x: Id)
    requires i < |apps|
    ensures multiset(apps[..i + 1])[x] == multiset(apps[..i])[x] + if x == apps[i] then 1 else 0
    ensures multiset(apps[..i + 1])[x] <= multiset(apps)[x]
  {
    assert apps[..i + 1] == apps[..i] + [apps[i]];
    OneMoreOccurrence(apps[..i], apps[i], x);
    assert apps == apps[..i + 1] + apps[i + 1..];
    assert multiset(apps) == multiset(apps[..i + 1]) + multiset(apps[i + 1..]);
  }

  lemma CountNothing(counts: map<Id, nat>, none: seq<Id>)
    requires none == [] && forall a :: a in counts ==> counts[a] > 0
    ensures AddCounts(counts, none) == counts && SubtractCounts(counts, none) == counts
  {
  }

  /** Registering reports each app id that was unknown, once. */
  lemma {:induction false} NewAppsAreNew(counts: map<Id, nat>, apps: seq<Id>)
    ensures forall a :: a in NewApps(counts, apps) <==> a in apps && a !in counts
    ensures forall i, j :: 0 <= i < j < |NewApps(counts, apps)| ==> NewApps(counts, apps)[i] != NewApps(counts, apps)[j]
  {
    if apps != [] {
      var before := apps[..|apps| - 1];
      NewAppsAreNew(counts, before);
      assert apps == before + [apps[|apps| - 1]];
      var n := NewApps(counts, before);
      assert forall i :: 0 <= i < |n| ==> n[i] in n;
    }
  }

  /** Unregistering undoes registering: the counts and the registry are as before. */
  lemma UnregisterUndoesRegister(t: Tracker, source: Source)
    requires CountsExact(t) && source.id !in t.registered
    ensures UnregisterSource(RegisterSource(t, source), source.id) == t
  {
    var t' := RegisterSource(t, source);
    assert t'.registered - {source.id} == t.registered;
    assert SubtractCounts(t'.counts, source.appIds) == t.counts;
  }

  // ----- change notification -----

  /** The answers depend on the cached results only. */
  lemma SameResultsSameReceivers(t: Tracker, t': Tracker, source: Source)
    requires t.results == t'.results
    ensures GetAvailableReceivers(t, source) == GetAvailableReceivers(t', source)
  {
    assert ReceiversFor(t, source) == ReceiversFor(t', source);
  }

  /** The two queries are the two readings of one relation. */
  lemma SupportIsMutual(t: Tracker, receiver: Id, s: Id)
    requires s in t.registered
    ensures s in GetSupportedSources(t, receiver) <==> receiver in GetAvailableReceivers(t, t.registered[s])
  {
  }

  /** A registered source that an update does not report has the same receivers as before. */
  lemma UpdateReportsChanges(t: Tracker, receiver: Id, app: Id, result: Result, s: Id)
    requires s in t.registered && s !in AffectedByUpdate(t, receiver, app, result)
    ensures GetAvailableReceivers(UpdateAppAvailability(t, receiver, app, result), t.registered[s])
            == GetAvailableReceivers(t, t.registered[s])
  {
    var t' := UpdateAppAvailability(t, receiver, app, result);
    var apps := t.registered[s].appIds;
    forall r
      ensures HasAvailable(ResultsOf(t', r), apps) == HasAvailable(ResultsOf(t, r), apps)
    {
      assert forall a :: a in apps ==> IsAvailable(ResultsOf(t', r), a) == IsAvailable(ResultsOf(t, r), a);
    }
    assert ReceiversFor(t', t.registered[s]) == ReceiversFor(t, t.registered[s]);
  }

  /** Nor does forgetting a receiver change the receivers of a source it does not report. */
  lemma RemovalReportsChanges(t: Tracker, receiver: Id, s: Id)
    requires s in t.registered && s !in GetSupportedSources(t, receiver)
    ensures GetAvailableReceivers(RemoveResultsForReceiver(t, receiver), t.registered[s])
            == GetAvailableReceivers(t, t.registered[s])
  {
    assert ReceiversFor(RemoveResultsForReceiver(t, receiver), t.registered[s]) == ReceiversFor(t, t.registered[s]);
  }

  /** An update reports exactly the sources with the app, if the receiver begins or ceases to have it. */
  lemma UpdateReportsExactly(t: Tracker, receiver: Id, app: Id, result: Result, s: Id)
    ensures var t' := UpdateAppAvailability(t, receiver, app, result);
            s in AffectedByUpdate(t, receiver, app, result) <==>
              && s in t.registered && app in t.registered[s].appIds
              && IsAvailable(ResultsOf(t, receiver), app) != IsAvailable(ResultsOf(t', receiver), app)
  {
    assert s in AffectedByUpdate(t, receiver, app, result) <==> s in SourcesUpdatedBy(t, receiver, app, result);
  }

  /** A removal reports exactly the sources that lose the receiver. */
  lemma RemovalReportsExactly(t: Tracker, receiver: Id, s: Id)
    ensures var t' := RemoveResultsForReceiver(t, receiver);
            s in GetSupportedSources(t, receiver) <==>
              && s in t.registered
              && receiver in GetAvailableReceivers(t, t.registered[s]) && receiver !in GetAvailableReceivers(t', t.registered[s])
  {
    if s in t.registered {
      SupportIsMutual(t, receiver, s);
    }
  }
}

/** Every live observer always knows exactly the current answer to its query. */
module DiscoveryProofs {
  import opened Common
  import opened SortedKeys
  import opened TrackerSpec
  import opened DiscoverySpec
  import TrackerProofs

  /** Observer `q` watches source `id`. */
  ghost predicate Watches(s: Service, q: Query, id: Id) {
    id in s.queries && q in s.queries[id]
  }

  ghost predicate QueriesDistinct(s: Service) {
    && (forall q, id :: Watches(s, q, id) ==> q < s.nextQuery)
    && (forall q, id, id' :: Watches(s, q, id) && Watches(s, q, id') ==> id == id')
    && (forall id, i, j :: id in s.queries && 0 <= i < j < |s.queries[id]| ==> s.queries[id][i] != s.queries[id][j])
    && (forall id :: id in s.queries ==> s.queries[id] != [])
    && (forall q :: q in s.told ==> q < s.nextQuery)
  }

  /** Every observer has last been told the list that a fresh query would return. */
  ghost predicate AllKnowCurrent(s: Service)
    requires s.tracker.registered.Keys == s.queries.Keys
  {
    forall q, id :: Watches(s, q, id) ==> Knows(s, q) == CurrentList(s.receivers, s.tracker, s.tracker.registered[id])
  }

  /** About every registered app every present receiver has answered, or its answer is outstanding. */
  ghost predicate AllAsked(s: Service) {
    forall r, a :: r in s.receivers && a in s.tracker.counts ==> a in ResultsOf(s.tracker, r) || (r, a) in s.asked
  }

  ghost predicate Inv(s: Service) {
    && s.tracker.registered.Keys == s.queries.Keys
    && TrackerProofs.CountsExact(s.tracker)
    && s.tracker.results.Keys <= s.receivers.Keys
    && QueriesDistinct(s)
    && AllKnowCurrent(s)
    && AllAsked(s)
  }

  // ----- notification -----

  /** Observers of a listed source are told the current list; the others nothing. */
  lemma {:induction false} NotifyTells(s: Service, sources: seq<Id>, n: nat, q: Query, id: Id)
    requires n <= |sources| && QueriesDistinct(s) && s.tracker.registered.Keys == s.queries.Keys
    requires Watches(s, q, id)
    ensures id in sources[..n] ==>
      q in ToldAfter(s, sources, n) &&
      ToldAfter(s, sources, n)[q] == CurrentList(s.receivers, s.tracker, s.tracker.registered[id])
    ensures id !in sources[..n] ==>
      (q in ToldAfter(s, sources, n) <==> q in s.told) &&
      (q in s.told ==> ToldAfter(s, sources, n)[q] == s.told[q])
  {
    if n > 0 {
      NotifyTells(s, sources, n - 1, q, id);
      assert sources[..n] == sources[..n - 1] + [sources[n - 1]];
      if sources[n - 1] != id {
        assert !Watches(s, q, sources[n - 1]);
      }
    }
  }

  lemma {:induction false} ToldStaysDistinct(s: Service, sources: seq<Id>, n: nat)
    requires n <= |sources| && QueriesDistinct(s)
    ensures forall q :: q in ToldAfter(s, sources, n) ==> q < s.nextQuery
  {
    if n > 0 {
      ToldStaysDistinct(s, sources, n - 1);
      var id := sources[n - 1];
      assert forall q :: id in s.queries && q in s.queries[id] ==> Watches(s, q, id);
    }
  }

  /**
   The heart of the matter.  If the observers knew the list of the earlier state, and every
   source whose list has changed since is among `sources`, then notifying those is enough.
   */
  lemma NotifyIsEnough(before: Service, s: Service, sources: seq<Id>)
    requires QueriesDistinct(s) && s.tracker.registered.Keys == s.queries.Keys
    requires before.tracker.registered.Keys == before.queries.Keys && AllKnowCurrent(before)
    requires s.queries == before.queries && s.told == before.told
    requires s.tracker.registered == before.tracker.registered
    requires forall id :: id in s.queries && id !in sources ==>
      CurrentList(s.receivers, s.tracker, s.tracker.registered[id])
      == CurrentList(before.receivers, before.tracker, before.tracker.registered[id])
    ensures AllKnowCurrent(Notify(s, sources))
    ensures QueriesDistinct(Notify(s, sources))
  {
    var s' := Notify(s, sources);
    assert sources[..|sources|] == sources;
    forall q, id | Watches(s', q, id)
      ensures Knows(s', q) == CurrentList(s'.receivers, s'.tracker, s'.tracker.registered[id])
    {
      assert Watches(s, q, id) && Watches(before, q, id);
      NotifyTells(s, sources, |sources|, q, id);
    }
    ToldStaysDistinct(s, sources, |sources|);
    assert forall q, id :: Watches(s', q, id) <==> Watches(s, q, id);
  }

  lemma {:induction false} SameEntriesSameList(receivers: map<Id, Info>, receivers': map<Id, Info>, ids: seq<Id>)
    requires forall x :: x in ids ==>
      (x in receivers <==> x in receivers') && (x in receivers ==> receivers[x] == receivers'[x])
    ensures ByIds(receivers, ids) == ByIds(receivers', ids)
  {
    if ids != [] {
      var last := ids[|ids| - 1];
      assert last in ids;
      assert last in receivers <==> last in receivers';
      SameEntriesSameList(receivers, receivers', ids[..|ids| - 1]);
    }
  }

  // ----- every event keeps the invariant -----

  lemma AddKeepsInv(s: Service, info: Info, now: Time)
    requires Inv(s)
    ensures Inv(AddOrUpdateReceiver(s, info, now))
  {
    var s1 := s.(receivers := s.receivers[info.id := info]);
    var affected := GetSupportedSources(s.tracker, info.id);
    forall id | id in s1.queries && id !in affected
      ensures CurrentList(s1.receivers, s1.tracker, s1.tracker.registered[id])
              == CurrentList(s.receivers, s.tracker, s.tracker.registered[id])
    {
      TrackerProofs.SupportIsMutual(s.tracker, info.id, id);
      SameEntriesSameList(s.receivers, s1.receivers, GetAvailableReceivers(s.tracker, s.tracker.registered[id]));
    }
    assert forall q, id :: Watches(s1, q, id) <==> Watches(s, q, id);
    NotifyIsEnough(s, s1, affected);
    var s2 := Notify(s1, affected);
    var s' := AddOrUpdateReceiver(s, info, now);
    assert forall q, id :: Watches(s', q, id) <==> Watches(s2, q, id);
    forall r, a | r in s'.receivers && a in s'.tracker.counts
      ensures a in ResultsOf(s'.tracker, r) || (r, a) in s'.asked
    {
      if r == info.id && a !in ResultsOf(s'.tracker, r) {
        assert ShouldRefresh(s2.tracker, r, a, now);
      }
    }
  }

  lemma RemoveKeepsInv(s: Service, r: Id)
    requires Inv(s)
    ensures Inv(RemoveReceiver(s, r))
  {
    var s1 := s.(receivers := s.receivers - {r},
                 tracker := RemoveResultsForReceiver(s.tracker, r),
                 asked := set p | p in s.asked && p.0 != r);
    var affected := GetSupportedSources(s.tracker, r);
    forall id | id in s1.queries && id !in affected
      ensures CurrentList(s1.receivers, s1.tracker, s1.tracker.registered[id])
              == CurrentList(s.receivers, s.tracker, s.tracker.registered[id])
    {
      TrackerProofs.RemovalReportsChanges(s.tracker, r, id);
      TrackerProofs.SupportIsMutual(s.tracker, r, id);
      SameEntriesSameList(s.receivers, s1.receivers, GetAvailableReceivers(s.tracker, s.tracker.registered[id]));
    }
    assert forall q, id :: Watches(s1, q, id) <==> Watches(s, q, id);
    NotifyIsEnough(s, s1, affected);
  }

  lemma AnswerKeepsInv(s: Service, receiver: Id, app: Id, availability: AppAvailability, now: Time)
    requires Inv(s)
    ensures Inv(HandleAnswer(s, receiver, app, availability, now))
  {
    if receiver in s.receivers {
      var result := Result(availability, now);
      var s1 := s.(tracker := UpdateAppAvailability(s.tracker, receiver, app, result), asked := s.asked - {(receiver, app)});
      var affected := AffectedByUpdate(s.tracker, receiver, app, result);
      forall id | id in s1.queries && id !in affected
        ensures CurrentList(s1.receivers, s1.tracker, s1.tracker.registered[id])
                == CurrentList(s.receivers, s.tracker, s.tracker.registered[id])
      {
        TrackerProofs.UpdateReportsChanges(s.tracker, receiver, app, result, id);
      }
      assert forall q, id :: Watches(s1, q, id) <==> Watches(s, q, id);
      NotifyIsEnough(s, s1, affected);
      AnswerKeepsAsked(s, receiver, app, result);
    }
  }

  lemma AnswerKeepsAsked(s: Service, receiver: Id, app: Id, result: Result)
    requires AllAsked(s)
    ensures AllAsked(s.(tracker := UpdateAppAvailability(s.tracker, receiver, app, result), asked := s.asked - {(receiver, app)}))
  {
  }

  /** Asking changes nothing an observer can see. */
  lemma AskKeepsView(s: Service, receivers: set<Id>, apps: set<Id>, now: Time)
    requires s.tracker.registered.Keys == s.queries.Keys && QueriesDistinct(s) && AllKnowCurrent(s)
    ensures QueriesDistinct(Ask(s, receivers, apps, now)) && AllKnowCurrent(Ask(s, receivers, apps, now))
  {
    var s' := Ask(s, receivers, apps, now);
    assert forall q, id :: Watches(s', q, id) <==> Watches(s, q, id);
  }

  /** A pair that is asked about, or needs no asking, has a result or a request. */
  lemma AskCovers(s: Service, receivers: set<Id>, apps: set<Id>, now: Time, r: Id, a: Id)
    requires r in receivers && a in apps
    ensures a in ResultsOf(s.tracker, r) || (r, a) in Ask(s, receivers, apps, now).asked
  {
    if a !in ResultsOf(s.tracker, r) {
      assert ShouldRefresh(s.tracker, r, a, now);
    }
  }

  lemma RefreshKeepsInv(s: Service, now: Time)
    requires Inv(s)
    ensures Inv(Refresh(s, now))
  {
    AskKeepsView(s, s.receivers.Keys, s.tracker.counts.Keys, now);
  }

  lemma EnterKeepsQueries(s: Service, source: Source)
    requires Inv(s) && Enabled(s, Start(source, 0))
    ensures Enter(s, source).tracker.registered.Keys == Enter(s, source).queries.Keys
    ensures forall q, id :: Watches(Enter(s, source), q, id) <==>
      Watches(s, q, id) || (q == s.nextQuery && id == source.id)
    ensures QueriesDistinct(Enter(s, source))
  {
    var s1 := Enter(s, source);
    assert forall q :: source.id in s.queries && q in s.queries[source.id] ==> Watches(s, q, source.id);
    assert forall q, id :: Watches(s1, q, id) <==> Watches(s, q, id) || (q == s.nextQuery && id == source.id);
    forall id, i, j | id in s1.queries && 0 <= i < j < |s1.queries[id]|
      ensures s1.queries[id][i] != s1.queries[id][j]
    {
      EnterKeepsDistinct(s, source, id, i, j);
    }
  }

  lemma EnterKeepsDistinct(s: Service, source: Source, id: Id, i: int, j: int)
    requires QueriesDistinct(s) && id in Enter(s, source).queries && 0 <= i < j < |Enter(s, source).queries[id]|
    ensures Enter(s, source).queries[id][i] != Enter(s, source).queries[id][j]
  {
    if id in s.queries {
      assert forall k :: 0 <= k < |s.queries[id]| ==> Watches(s, s.queries[id][k], id);
    }
  }

  /** An observer whose view of the world is as before knows what it knew. */
  lemma ViewCarriesOver(before: Service, after: Service, q: Query, id: Id)
    requires before.tracker.registered.Keys == before.queries.Keys && AllKnowCurrent(before)
    requires after.tracker.registered.Keys == after.queries.Keys
    requires after.receivers == before.receivers && after.tracker.results == before.tracker.results
    requires Watches(before, q, id) && Watches(after, q, id)
    requires Knows(after, q) == Knows(before, q) && after.tracker.registered[id] == before.tracker.registered[id]
    ensures Knows(after, q) == CurrentList(after.receivers, after.tracker, after.tracker.registered[id])
  {
    TrackerProofs.SameResultsSameReceivers(before.tracker, after.tracker, after.tracker.registered[id]);
  }

  lemma NewcomerIsTold(s: Service, source: Source)
    requires s.nextQuery !in s.told
    ensures Knows(Enter(s, source), s.nextQuery) == CurrentList(s.receivers, Enter(s, source).tracker, source)
  {
    TrackerProofs.SameResultsSameReceivers(s.tracker, Enter(s, source).tracker, source);
  }

  lemma EnterKeepsRegistered(s: Service, source: Source, id: Id)
    requires Inv(s) && Enabled(s, Start(source, 0))
    ensures Enter(s, source).tracker.registered.Keys == Enter(s, source).queries.Keys
    ensures id in s.queries ==> Enter(s, source).tracker.registered[id] == s.tracker.registered[id]
    ensures Enter(s, source).tracker.registered[source.id] == source
  {
  }

  lemma EnterKeepsView(s: Service, source: Source)
    requires Inv(s) && Enabled(s, Start(source, 0))
    requires Enter(s, source).tracker.registered.Keys == Enter(s, source).queries.Keys
    ensures AllKnowCurrent(Enter(s, source))
  {
    var s1 := Enter(s, source);
    EnterKeepsQueries(s, source);
    forall q, id | Watches(s1, q, id)
      ensures Knows(s1, q) == CurrentList(s1.receivers, s1.tracker, s1.tracker.registered[id])
    {
      EnterKeepsRegistered(s, source, id);
      if Watches(s, q, id) {
        ViewCarriesOver(s, s1, q, id);
      } else {
        NewcomerIsTold(s, source);
      }
    }
  }

  lemma EnterAndAskCovers(s: Service, source: Source, now: Time)
    requires Inv(s) && IsFirst(s, source)
    ensures AllAsked(StartObserving(s, source, now))
  {
    var s1, s' := Enter(s, source), StartObserving(s, source, now);
    var newApps := set a | a in NewAppIds(s.tracker, source);
    TrackerProofs.NewAppsAreNew(s.tracker.counts, source.appIds);
    forall r, a | r in s'.receivers && a in s'.tracker.counts
      ensures a in ResultsOf(s'.tracker, r) || (r, a) in s'.asked
    {
      if a !in s.tracker.counts {
        assert a in NewAppIds(s.tracker, source);
        AskCovers(s1, s.receivers.Keys, newApps, now, r, a);
      }
    }
  }

  lemma StartKeepsInv(s: Service, source: Source, now: Time)
    requires Inv(s) && Enabled(s, Start(source, now))
    ensures Inv(StartObserving(s, source, now))
  {
    EnterKeepsQueries(s, source);
    EnterKeepsView(s, source);
    if IsFirst(s, source) {
      TrackerProofs.RegisterKeepsCounts(s.tracker, source);
      AskKeepsView(Enter(s, source), s.receivers.Keys, (set a | a in NewAppIds(s.tracker, source)), now);
      EnterAndAskCovers(s, source, now);
    }
  }

  lemma {:induction false} EraseTakesOne(l: seq<Query>, q: Query)
    requires forall i, j :: 0 <= i < j < |l| ==> l[i] != l[j]
    ensures forall x :: x in Erase(l, q) <==> x in l && x != q
    ensures forall i, j :: 0 <= i < j < |Erase(l, q)| ==> Erase(l, q)[i] != Erase(l, q)[j]
  {
    if l != [] {
      assert l == [l[0]] + l[1..];
      assert l[0] !in l[1..];
      EraseTakesOne(l[1..], q);
      var rest := Erase(l[1..], q);
      assert forall k :: 0 <= k < |rest| ==> rest[k] in rest;
    }
  }

  lemma StopKeepsQueries(s: Service, q: Query)
    requires s.tracker.registered.Keys == s.queries.Keys && QueriesDistinct(s)
    ensures var s' := StopObserving(s, q);
            && s'.tracker.registered.Keys == s'.queries.Keys
            && (forall p, i :: Watches(s', p, i) <==> Watches(s, p, i) && p != q)
            && QueriesDistinct(s')
  {
    if OwnersOf(s, q) == {} {
      assert forall p, i :: Watches(s, p, i) ==> p in s.queries[i] && (p == q ==> i in OwnersOf(s, q));
    } else {
      var id := MinKey(OwnersOf(s, q));
      var s' := StopObserving(s, q);
      assert Watches(s, q, id);
      EraseTakesOne(s.queries[id], q);
      var rest := Erase(s.queries[id], q);
      assert rest == [] ==> forall x :: x in s.queries[id] ==> x !in rest;
      forall p, i
        ensures Watches(s', p, i) <==> Watches(s, p, i) && p != q
      {
        assert Watches(s, q, i) ==> i == id;
        if i == id {
          assert p in rest <==> p in s.queries[id] && p != q;
        }
      }
    }
  }

  lemma StopKeepsView(s: Service, q: Query)
    requires Inv(s)
    requires StopObserving(s, q).tracker.registered.Keys == StopObserving(s, q).queries.Keys
    ensures AllKnowCurrent(StopObserving(s, q))
  {
    var s' := StopObserving(s, q);
    StopKeepsQueries(s, q);
    forall p, i | Watches(s', p, i)
      ensures Knows(s', p) == CurrentList(s'.receivers, s'.tracker, s'.tracker.registered[i])
    {
      ViewCarriesOver(s, s', p, i);
    }
  }

  lemma StopKeepsInv(s: Service, q: Query)
    requires Inv(s)
    ensures Inv(StopObserving(s, q))
  {
    StopKeepsQueries(s, q);
    StopKeepsView(s, q);
    if OwnersOf(s, q) != {} {
      TrackerProofs.UnregisterKeepsCounts(s.tracker, MinKey(OwnersOf(s, q)));
    }
  }

  lemma StepKeepsInv(s: Service, e: Event)
    requires Inv(s) && Enabled(s, e)
    ensures Inv(Step(s, e))
  {
    match e
    case Start(source, now) => StartKeepsInv(s, source, now);
    case Stop(query) => StopKeepsInv(s, query);
    case Add(info, now) => AddKeepsInv(s, info, now);
    case Remove(receiver) => RemoveKeepsInv(s, receiver);
    case Answer(receiver, app, availability, now) => AnswerKeepsInv(s, receiver, app, availability, now);
    case RefreshAll(now) => RefreshKeepsInv(s, now);
  }

  lemma {:induction false} AlwaysInv(ss: seq<Service>, es: seq<Event>, i: nat)
    requires IsRun(ss, es) && i < |ss|
    ensures Inv(ss[i])
  {
    if i > 0 {
      AlwaysInv(ss, es, i - 1);
      StepKeepsInv(ss[i - 1], es[i - 1]);
    }
  }

  /**
   In every run, after every event, every live observer has last been told exactly the
   receivers that can currently run its source, each with its newest information.
   */
  lemma ObserversAreUpToDate(ss: seq<Service>, es: seq<Event>, i: nat, q: Query, id: Id)
    requires IsRun(ss, es) && i < |ss| && Watches(ss[i], q, id)
    ensures id in ss[i].tracker.registered
    ensures Knows(ss[i], q) == CurrentList(ss[i].receivers, ss[i].tracker, ss[i].tracker.registered[id])
  {
    AlwaysInv(ss, es, i);
  }

  /** What that list is: one entry per present receiver with an available app, in order, newest data. */
  lemma {:induction false} ListIsExact(receivers: map<Id, Info>, ids: seq<Id>)
    requires forall k :: 0 <= k < |ids| ==> ids[k] in receivers
    ensures |ByIds(receivers, ids)| == |ids|
    ensures forall k :: 0 <= k < |ids| ==> ByIds(receivers, ids)[k] == receivers[ids[k]]
  {
    if ids != [] {
      ListIsExact(receivers, ids[..|ids| - 1]);
    }
  }

  lemma ListMatchesReceivers(ss: seq<Service>, es: seq<Event>, i: nat, q: Query, id: Id)
    requires IsRun(ss, es) && i < |ss| && Watches(ss[i], q, id) && id in ss[i].tracker.registered
    ensures var ids := GetAvailableReceivers(ss[i].tracker, ss[i].tracker.registered[id]);
            && |Knows(ss[i], q)| == |ids|
            && forall k :: 0 <= k < |ids| ==> ids[k] in ss[i].receivers && Knows(ss[i], q)[k] == ss[i].receivers[ids[k]]
  {
    AlwaysInv(ss, es, i);
    var ids := GetAvailableReceivers(ss[i].tracker, ss[i].tracker.registered[id]);
    assert forall k :: 0 <= k < |ids| ==> ids[k] in ids;
    ListIsExact(ss[i].receivers, ids);
  }

  /** In every run the tracker tracks exactly the observed sources, and counts their app ids. */
  lemma RegistryMatchesObservers(ss: seq<Service>, es: seq<Event>, i: nat)
    requires IsRun(ss, es) && i < |ss|
    ensures ss[i].tracker.registered.Keys == ss[i].queries.Keys
    ensures forall id :: id in ss[i].queries ==> ss[i].queries[id] != []
    ensures TrackerProofs.CountsExact(ss[i].tracker)
  {
    AlwaysInv(ss, es, i);
  }

  /** In every run, for a present receiver and an observed app there is a result or an answer outstanding. */
  lemma NoPairForgotten(ss: seq<Service>, es: seq<Event>, i: nat, r: Id, a: Id)
    requires IsRun(ss, es) && i < |ss|
    requires r in ss[i].receivers && TrackerProofs.Total(ss[i].tracker.registered, a) > 0
    ensures a in ResultsOf(ss[i].tracker, r) || (r, a) in ss[i].asked
  {
    AlwaysInv(ss, es, i);
  }
}

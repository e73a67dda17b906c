/** What the service knows, tells and asks, told from the events alone. */
module DiscoveryHistory {
  import opened Common
  import opened SortedKeys
  import opened TrackerSpec
  import opened DiscoverySpec
  import opened DiscoveryProofs
  import TrackerProofs

  // ----- the events -----

  /** The latest information about a receiver that was added, or updated, and not removed since. */
  ghost function NewestInfo(es: seq<Event>, r: Id): Option<Info> {
    if es == [] then None
    else
      var before := NewestInfo(es[..|es| - 1], r);
      match es[|es| - 1]
      case Add(info, _) => if info.id == r then Some(info) else before
      case Remove(x) => if x == r then None else before
      case _ => before
  }

  /** The latest answer of a receiver about an app, of those that came while it was present. */
  ghost function NewestAnswer(es: seq<Event>, r: Id, a: Id): Option<Result> {
    if es == [] then None
    else
      var earlier := es[..|es| - 1];
      var before := NewestAnswer(earlier, r, a);
      match es[|es| - 1]
      case Remove(x) => if x == r then None else before
      case Answer(x, app, availability, now) =>
        if x == r && app == a && NewestInfo(earlier, r).Some? then Some(Result(availability, now)) else before
      case _ => before
  }

  /** How many observers there have been; they are numbered from one. */
  ghost function Observers(es: seq<Event>): nat {
    if es == [] then 0 else Observers(es[..|es| - 1]) + if es[|es| - 1].Start? then 1 else 0
  }

  /** The source that an observer observes, if it has started and not stopped. */
  ghost function Observed(es: seq<Event>, q: Query): Option<Source> {
    if es == [] then None
    else
      var before := Observed(es[..|es| - 1], q);
      match es[|es| - 1]
      case Start(source, _) => if q == Observers(es[..|es| - 1]) + 1 then Some(source) else before
      case Stop(x) => if x == q then None else before
      case _ => before
  }

  /** Some observer's source has the app. */
  ghost predicate IsObserved(es: seq<Event>, a: Id) {
    exists q :: Observed(es, q).Some? && a in Observed(es, q).value.appIds
  }

  /** There is no answer, or none to go by: it is unknown, or a minute has passed since the app was not available. */
  ghost predicate NeedsAsking(es: seq<Event>, r: Id, a: Id, now: Time) {
    match NewestAnswer(es, r, a)
    case None => true
    case Some(result) =>
      match result.availability
      case Available => false
      case Unavailable => now - result.time > 60_000_000
      case Unknown => true
  }

  /** The receiver has been asked about the app and has not answered since. */
  ghost predicate IsOutstanding(es: seq<Event>, r: Id, a: Id) {
    if es == [] then false
    else
      var earlier := es[..|es| - 1];
      var before := IsOutstanding(earlier, r, a);
      match es[|es| - 1]
      case Start(source, now) =>
        || before
        || (NewestInfo(earlier, r).Some? && a in source.appIds && !IsObserved(earlier, a) && NeedsAsking(earlier, r, a, now))
      case Add(info, now) => before || (info.id == r && IsObserved(earlier, a) && NeedsAsking(earlier, r, a, now))
      case RefreshAll(now) =>
        before || (NewestInfo(earlier, r).Some? && IsObserved(earlier, a) && NeedsAsking(earlier, r, a, now))
      case Remove(x) => before && x != r
      case Answer(x, app, _, _) => before && !(x == r && app == a && NewestInfo(earlier, r).Some?)
      case Stop(_) => before
  }

  lemma LastEvent(es: seq<Event>, i: nat)
    requires 0 < i <= |es|
    ensures es[..i][..i - 1] == es[..i - 1] && es[..i][i - 1] == es[i - 1] && |es[..i]| == i
  {
  }

  // ----- receivers and results -----

  ghost function InfoOf(s: Service, r: Id): Option<Info> {
    if r in s.receivers then Some(s.receivers[r]) else None
  }

  ghost function AnswerOf(s: Service, r: Id, a: Id): Option<Result> {
    if a in ResultsOf(s.tracker, r) then Some(ResultsOf(s.tracker, r)[a]) else None
  }

  lemma ReceiversStep(s: Service, e: Event, r: Id)
    ensures InfoOf(Step(s, e), r) ==
            match e {
              case Add(info, _) => if info.id == r then Some(info) else InfoOf(s, r)
              case Remove(x) => if x == r then None else InfoOf(s, r)
              case _ => InfoOf(s, r)
            }
  {
  }

  lemma AnswersStep(s: Service, e: Event, r: Id, a: Id)
    ensures AnswerOf(Step(s, e), r, a) ==
            match e {
              case Remove(x) => if x == r then None else AnswerOf(s, r, a)
              case Answer(x, app, availability, now) =>
                if x == r && app == a && r in s.receivers then Some(Result(availability, now)) else AnswerOf(s, r, a)
              case _ => AnswerOf(s, r, a)
            }
  {
  }

  /** In every run the receivers known are those added and not removed, each with its newest information. */
  lemma {:induction false} ReceiversFollowEvents(ss: seq<Service>, es: seq<Event>, i: nat, r: Id)
    requires IsRun(ss, es) && i < |ss|
    ensures InfoOf(ss[i], r) == NewestInfo(es[..i], r)
  {
    if i > 0 {
      ReceiversFollowEvents(ss, es, i - 1, r);
      ReceiversStep(ss[i - 1], es[i - 1], r);
      LastEvent(es, i);
    }
  }

  /** In every run the results cached are the newest answers. */
  lemma {:induction false} ResultsFollowEvents(ss: seq<Service>, es: seq<Event>, i: nat, r: Id, a: Id)
    requires IsRun(ss, es) && i < |ss|
    ensures AnswerOf(ss[i], r, a) == NewestAnswer(es[..i], r, a)
  {
    if i > 0 {
      ResultsFollowEvents(ss, es, i - 1, r, a);
      ReceiversFollowEvents(ss, es, i - 1, r);
      AnswersStep(ss[i - 1], es[i - 1], r, a);
      LastEvent(es, i);
    }
  }

  // ----- observers -----

  /** The source of an observer that is entered. */
  ghost predicate IsSourceOf(s: Service, q: Query, source: Source) {
    Watches(s, q, source.id) && source.id in s.tracker.registered && s.tracker.registered[source.id] == source
  }

  lemma QueriesKept(s: Service, e: Event)
    requires !e.Start? && !e.Stop?
    ensures Step(s, e).queries == s.queries && Step(s, e).nextQuery == s.nextQuery
    ensures Step(s, e).tracker.registered == s.tracker.registered && Step(s, e).tracker.counts == s.tracker.counts
  {
  }

  lemma SourcesKept(s: Service, e: Event, q: Query, source: Source)
    requires !e.Start? && !e.Stop?
    ensures IsSourceOf(Step(s, e), q, source) <==> IsSourceOf(s, q, source)
  {
    QueriesKept(s, e);
  }

  lemma SourcesAfterStart(s: Service, source: Source, now: Time, q: Query, x: Source)
    requires Inv(s) && Enabled(s, Start(source, now))
    ensures IsSourceOf(StartObserving(s, source, now), q, x) <==>
              if q == s.nextQuery then x == source else IsSourceOf(s, q, x)
    ensures StartObserving(s, source, now).nextQuery == s.nextQuery + 1
  {
    var s1, s' := Enter(s, source), StartObserving(s, source, now);
    assert s'.queries == s1.queries && s'.tracker == s1.tracker && s'.nextQuery == s1.nextQuery;
    EnterKeepsQueries(s, source);
    EnterKeepsRegistered(s, source, x.id);
    assert Watches(s', q, x.id) <==> Watches(s1, q, x.id);
  }

  lemma SourcesAfterStop(s: Service, stopped: Query, q: Query, x: Source)
    requires Inv(s)
    ensures IsSourceOf(StopObserving(s, stopped), q, x) <==> IsSourceOf(s, q, x) && q != stopped
    ensures StopObserving(s, stopped).nextQuery == s.nextQuery
  {
    StopKeepsQueries(s, stopped);
  }

  /** In every run the observers entered, and their sources, are those started and not stopped. */
  lemma {:induction false} ObserversFollowEvents(ss: seq<Service>, es: seq<Event>, i: nat, q: Query, source: Source)
    requires IsRun(ss, es) && i < |ss|
    ensures IsSourceOf(ss[i], q, source) <==> Observed(es[..i], q) == Some(source)
    ensures ss[i].nextQuery == Observers(es[..i]) + 1
  {
    if i > 0 {
      ObserversFollowEvents(ss, es, i - 1, q, source);
      LastEvent(es, i);
      AlwaysInv(ss, es, i - 1);
      match es[i - 1]
      case Start(x, now) => SourcesAfterStart(ss[i - 1], x, now, q, source);
      case Stop(x) => SourcesAfterStop(ss[i - 1], x, q, source);
      case _ =>
        SourcesKept(ss[i - 1], es[i - 1], q, source);
        QueriesKept(ss[i - 1], es[i - 1]);
    }
  }

  // ----- what observers know -----

  /** The receiver is present, and has last said of some app of the source that it is available. */
  ghost predicate CanRun(es: seq<Event>, info: Info, source: Source) {
    && NewestInfo(es, info.id) == Some(info)
    && exists a :: a in source.appIds && NewestAnswer(es, info.id, a).Some?
                   && NewestAnswer(es, info.id, a).value.availability.Available?
  }

  ghost predicate InOrder(infos: seq<Info>) {
    forall j, k :: 0 <= j < k < |infos| ==> infos[j].id < infos[k].id
  }

  /**
   In every run every live observer has last been told exactly the receivers that can run its
   source by the events so far, each with its newest information, once and in order.
   */
  lemma ObserversKnowNewestInfo(ss: seq<Service>, es: seq<Event>, i: nat, q: Query)
    requires IsRun(ss, es) && i < |ss| && Observed(es[..i], q).Some?
    ensures InOrder(Knows(ss[i], q))
    ensures forall info :: info in Knows(ss[i], q) <==> CanRun(es[..i], info, Observed(es[..i], q).value)
  {
    var s, source := ss[i], Observed(es[..i], q).value;
    ObserversFollowEvents(ss, es, i, q, source);
    ListMatchesReceivers(ss, es, i, q, source.id);
    IdsMatch(ss, es, i);
    var ids := GetAvailableReceivers(s.tracker, source);
    assert forall k :: 0 <= k < |ids| ==> Knows(s, q)[k].id == ids[k];
    forall info
      ensures info in Knows(s, q) <==> CanRun(es[..i], info, source)
    {
      KnownIffCanRun(ss, es, i, q, info, source);
    }
  }

  /** Every receiver is entered under its own id. */
  lemma IdsMatch(ss: seq<Service>, es: seq<Event>, i: nat)
    requires IsRun(ss, es) && i < |ss|
    ensures forall r :: r in ss[i].receivers ==> ss[i].receivers[r].id == r
  {
    forall r | r in ss[i].receivers
      ensures ss[i].receivers[r].id == r
    {
      ReceiversFollowEvents(ss, es, i, r);
      NewestInfoHasId(es[..i], r);
    }
  }

  lemma {:induction false} NewestInfoHasId(es: seq<Event>, r: Id)
    ensures NewestInfo(es, r).Some? ==> NewestInfo(es, r).value.id == r
  {
    if es != [] {
      NewestInfoHasId(es[..|es| - 1], r);
    }
  }

  lemma KnownIffCanRun(ss: seq<Service>, es: seq<Event>, i: nat, q: Query, info: Info, source: Source)
    requires IsRun(ss, es) && i < |ss| && IsSourceOf(ss[i], q, source)
    requires forall r :: r in ss[i].receivers ==> ss[i].receivers[r].id == r
    ensures info in Knows(ss[i], q) <==> CanRun(es[..i], info, source)
  {
    var s, r := ss[i], info.id;
    AlwaysInv(ss, es, i);
    ListMatchesReceivers(ss, es, i, q, source.id);
    ReceiversFollowEvents(ss, es, i, r);
    AvailableFollowsEvents(ss, es, i, r, source);
    var ids := GetAvailableReceivers(s.tracker, source);
    if r in ids {
      var k :| 0 <= k < |ids| && ids[k] == r;
      assert Knows(s, q)[k] == s.receivers[r];
    }
    if info in Knows(s, q) {
      var k :| 0 <= k < |Knows(s, q)| && Knows(s, q)[k] == info;
      assert ids[k] == r;
    }
  }

  lemma AvailableFollowsEvents(ss: seq<Service>, es: seq<Event>, i: nat, r: Id, source: Source)
    requires IsRun(ss, es) && i < |ss|
    ensures r in GetAvailableReceivers(ss[i].tracker, source) <==>
              exists a :: a in source.appIds && NewestAnswer(es[..i], r, a).Some?
                          && NewestAnswer(es[..i], r, a).value.availability.Available?
  {
    forall a
      ensures AnswerOf(ss[i], r, a) == NewestAnswer(es[..i], r, a)
    {
      ResultsFollowEvents(ss, es, i, r, a);
    }
    var results := ResultsOf(ss[i].tracker, r);
    assert forall a :: IsAvailable(results, a) <==>
      NewestAnswer(es[..i], r, a).Some? && NewestAnswer(es[..i], r, a).value.availability.Available?;
    assert r in GetAvailableReceivers(ss[i].tracker, source) <==> HasAvailable(results, source.appIds);
  }

  // ----- what is asked -----

  lemma CountedIffRegistered(t: Tracker, a: Id)
    requires TrackerProofs.CountsExact(t)
    ensures a in t.counts <==> exists id :: id in t.registered && a in t.registered[id].appIds
  {
    TotalIffRegistered(t.registered, a);
  }

  lemma {:induction false} TotalIffRegistered(registered: map<Id, Source>, a: Id)
    ensures TrackerProofs.Total(registered, a) > 0 <==> exists id :: id in registered && a in registered[id].appIds
    decreases |registered|
  {
    if registered != map[] {
      assert registered.Keys != {};
      var k := MinKey(registered.Keys);
      assert k in registered;
      var rest := registered - {k};
      assert |rest| < |registered| by {
        assert rest.Keys == registered.Keys - {k};
      }
      TotalIffRegistered(rest, a);
      assert forall id :: id in registered <==> id == k || id in rest;
      assert a in registered[k].appIds <==> multiset(registered[k].appIds)[a] > 0;
    }
  }

  /** In every run the apps counted are those observed. */
  lemma CountedIffObserved(ss: seq<Service>, es: seq<Event>, i: nat, a: Id)
    requires IsRun(ss, es) && i < |ss|
    ensures a in ss[i].tracker.counts <==> IsObserved(es[..i], a)
  {
    var s := ss[i];
    AlwaysInv(ss, es, i);
    CountedIffRegistered(s.tracker, a);
    if id :| id in s.tracker.registered && a in s.tracker.registered[id].appIds {
      var q := s.queries[id][0];
      assert q in s.queries[id] && Watches(s, q, id);
      ObserversFollowEvents(ss, es, i, q, s.tracker.registered[id]);
    }
    if q :| Observed(es[..i], q).Some? && a in Observed(es[..i], q).value.appIds {
      ObserversFollowEvents(ss, es, i, q, Observed(es[..i], q).value);
    }
  }

  lemma StaleIffNeeded(ss: seq<Service>, es: seq<Event>, i: nat, r: Id, a: Id, now: Time)
    requires IsRun(ss, es) && i < |ss|
    ensures ShouldRefresh(ss[i].tracker, r, a, now) <==> NeedsAsking(es[..i], r, a, now)
  {
    ResultsFollowEvents(ss, es, i, r, a);
  }

  /** What each event does to the set of pairs outstanding. */
  lemma AskedStep(s: Service, e: Event, r: Id, a: Id)
    requires Inv(s) && Enabled(s, e)
    ensures (r, a) in Step(s, e).asked <==>
            match e {
              case Start(source, now) =>
                (r, a) in s.asked
                || (r in s.receivers && a in source.appIds && a !in s.tracker.counts && ShouldRefresh(s.tracker, r, a, now))
              case Add(info, now) =>
                (r, a) in s.asked || (info.id == r && a in s.tracker.counts && ShouldRefresh(s.tracker, r, a, now))
              case RefreshAll(now) =>
                (r, a) in s.asked || (r in s.receivers && a in s.tracker.counts && ShouldRefresh(s.tracker, r, a, now))
              case Remove(x) => (r, a) in s.asked && x != r
              case Answer(x, app, _, _) => (r, a) in s.asked && !(x == r && app == a && r in s.receivers)
              case Stop(_) => (r, a) in s.asked
            }
  {
    match e
    case Start(source, now) => StartAsks(s, source, now, r, a);
    case _ =>
  }

  lemma StartAsks(s: Service, source: Source, now: Time, r: Id, a: Id)
    requires Inv(s) && Enabled(s, Start(source, now))
    ensures (r, a) in StartObserving(s, source, now).asked <==>
              || (r, a) in s.asked
              || (r in s.receivers && a in source.appIds && a !in s.tracker.counts && ShouldRefresh(s.tracker, r, a, now))
  {
    if IsFirst(s, source) {
      FirstStartAsks(s, source, now, r, a);
    } else if a in source.appIds {
      assert s.tracker.registered[source.id] == source;
      CountedIffRegistered(s.tracker, a);
    }
  }

  lemma FirstStartAsks(s: Service, source: Source, now: Time, r: Id, a: Id)
    requires IsFirst(s, source) && source.id !in s.tracker.registered
    ensures (r, a) in StartObserving(s, source, now).asked <==>
              || (r, a) in s.asked
              || (r in s.receivers && a in source.appIds && a !in s.tracker.counts && ShouldRefresh(s.tracker, r, a, now))
  {
    var apps := set x | x in NewAppIds(s.tracker, source);
    var t := Enter(s, source).tracker;
    TrackerProofs.NewAppsAreNew(s.tracker.counts, source.appIds);
    StaleIff(t, s.receivers.Keys, apps, now, r, a);
    SameRefresh(t, s.tracker, r, a, now);
    StartAddsStale(s, source, now);
  }

  lemma StartAddsStale(s: Service, source: Source, now: Time)
    requires IsFirst(s, source)
    ensures StartObserving(s, source, now).asked ==
              s.asked + StalePairs(Enter(s, source).tracker, s.receivers.Keys, (set x | x in NewAppIds(s.tracker, source)), now)
  {
  }

  lemma SameRefresh(t: Tracker, t': Tracker, r: Id, a: Id, now: Time)
    requires t.results == t'.results
    ensures ShouldRefresh(t, r, a, now) <==> ShouldRefresh(t', r, a, now)
  {
  }

  lemma StaleIff(t: Tracker, receivers: set<Id>, apps: set<Id>, now: Time, r: Id, a: Id)
    ensures (r, a) in StalePairs(t, receivers, apps, now) <==> r in receivers && a in apps && ShouldRefresh(t, r, a, now)
  {
  }

  /**
   In every run the pairs that the platform client has been asked about and has not answered
   since are exactly those that the events say: nothing that is known is asked for again, and
   everything that is missing or stale is.
   */
  lemma {:induction false} AskedFollowsEvents(ss: seq<Service>, es: seq<Event>, i: nat, r: Id, a: Id)
    requires IsRun(ss, es) && i < |ss|
    ensures (r, a) in ss[i].asked <==> IsOutstanding(es[..i], r, a)
  {
    if i > 0 {
      AskedFollowsEvents(ss, es, i - 1, r, a);
      AskedBefore(ss, es, i - 1, r, a);
      LastEvent(es, i);
    }
  }

  lemma AskedBefore(ss: seq<Service>, es: seq<Event>, m: nat, r: Id, a: Id)
    requires IsRun(ss, es) && m < |es| && ((r, a) in ss[m].asked <==> IsOutstanding(es[..m], r, a))
    ensures (r, a) in ss[m + 1].asked <==> IsOutstanding(es[..m + 1], r, a)
  {
    var e := es[m];
    AlwaysInv(ss, es, m);
    AskedStep(ss[m], e, r, a);
    ReceiversFollowEvents(ss, es, m, r);
    CountedIffObserved(ss, es, m, a);
    if e.Start? || e.Add? || e.RefreshAll? {
      StaleIffNeeded(ss, es, m, r, a, e.now);
    }
    LastEvent(es, m + 1);
  }
}

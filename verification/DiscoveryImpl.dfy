/** cast/sender/cast_app_discovery_service_impl.cc in its own form. */
module DiscoveryImpl {
  import opened Common
  import opened SortedKeys
  import opened TrackerSpec
  import opened DiscoverySpec
  import opened TrackerImpl
  import TrackerProofs

  /** `sources` are registered under `ids`. */
  ghost predicate HaveIds(registered: map<Id, Source>, sources: seq<Source>, ids: seq<Id>) {
    && |sources| == |ids|
    && forall n :: 0 <= n < |ids| ==> sources[n].id == ids[n] && ids[n] in registered && registered[ids[n]] == sources[n]
  }

  /** A walk over the tracker's registry reports sources under their own ids. */
  lemma ReportedIds(registered: map<Id, Source>, target: set<Id>, sources: seq<Source>)
    requires AreSources(registered, target, sources)
    requires forall s :: s in registered ==> registered[s].id == s
    ensures HaveIds(registered, sources, Sorted(target))
  {
  }

  lemma OneMoreReceiver(t: Tracker, ids: seq<Id>, id: Id, apps: set<Id>, now: Time)
    ensures StalePairs(t, (set r | r in ids + [id]), apps, now)
            == StalePairs(t, (set r | r in ids), apps, now) + StalePairs(t, {id}, apps, now)
  {
  }

  class CastAppDiscoveryService {
    var receivers: map<Id, Info>
    var queries: map<Id, seq<Query>>
    var nextQuery: Query
    const tracker: CastAppAvailabilityTracker
    // What the callbacks have received, and what the platform client has yet to answer.
    var told: map<Query, seq<Info>>
    var asked: set<(Id, Id)>

    ghost function State(): Service
      reads this, tracker
    {
      Service(receivers, queries, nextQuery, tracker.State(), told, asked)
    }

    ghost predicate Valid()
      reads this, tracker
    {
      TrackerProofs.CountsExact(tracker.State())
    }

    constructor ()
      ensures Valid() && State() == Initial()
    {
      receivers, queries, nextQuery, told, asked := map[], map[], 1, map[], {};
      tracker := new CastAppAvailabilityTracker();
    }

    method GetReceiversByIds(ids: seq<Id>) returns (infos: seq<Info>)
      ensures infos == ByIds(receivers, ids)
    {
      infos := [];
      for i := 0 to |ids|
        invariant infos == ByIds(receivers, ids[..i])
      {
        assert ids[..i + 1][..i] == ids[..i];
        if ids[i] in receivers {
          infos := infos + [receivers[ids[i]]];
        }
      }
      assert ids[..|ids|] == ids;
    }

    /** Calls every callback in a list. */
    method CallAll(callbacks: seq<Query>, infos: seq<Info>)
      modifies this`told
      ensures told == old(told) + TellAll(callbacks, infos)
    {
      for i := 0 to |callbacks|
        invariant told == old(told) + TellAll(callbacks[..i], infos)
      {
        assert callbacks[..i + 1] == callbacks[..i] + [callbacks[i]];
        told := told[callbacks[i] := infos];
      }
      assert callbacks[..|callbacks|] == callbacks;
    }

    method UpdateAvailabilityQueries(sources: seq<Source>, ghost ids: seq<Id>)
      requires HaveIds(tracker.registered, sources, ids)
      modifies this`told
      ensures State() == Notify(old(State()), ids)
    {
      ghost var s := State();
      for i := 0 to |sources|
        invariant told == ToldAfter(s, ids, i)
      {
        assert sources[i].id == ids[i];
        UpdateQueriesFor(sources[i]);
      }
    }

    /** The body of the loop: the observers of one source. */
    method UpdateQueriesFor(source: Source)
      modifies this`told
      ensures told == old(told) +
        if source.id in queries
        then TellAll(queries[source.id], CurrentList(receivers, tracker.State(), source))
        else map[]
    {
      if source.id in queries {
        var available := tracker.GetAvailableReceivers(source);
        var infos := GetReceiversByIds(available);
        CallAll(queries[source.id], infos);
      }
    }

    predicate IsStale(receiver: Id, app: Id, now: Time)
      reads this, tracker
    {
      ShouldRefresh(Tracker(tracker.registered, tracker.counts, tracker.results), receiver, app, now)
    }

    method RequestAppAvailability(receiver: Id, app: Id, now: Time)
      modifies this`asked
      ensures asked == old(asked) + if ShouldRefresh(tracker.State(), receiver, app, now) then {(receiver, app)} else {}
    {
      if IsStale(receiver, app, now) {
        asked := asked + {(receiver, app)};
      }
    }

    /** Requests for one receiver. */
    method RequestApps(receiver: Id, apps: seq<Id>, now: Time)
      modifies this`asked
      ensures asked == old(asked) + StalePairs(tracker.State(), {receiver}, (set a | a in apps), now)
    {
      for i := 0 to |apps|
        invariant asked == old(asked) + StalePairs(tracker.State(), {receiver}, (set a | a in apps[..i]), now)
      {
        assert apps[..i + 1] == apps[..i] + [apps[i]];
        RequestAppAvailability(receiver, apps[i], now);
      }
      assert apps[..|apps|] == apps;
    }

    /** Requests for one app. */
    method RequestReceivers(ids: seq<Id>, app: Id, now: Time)
      modifies this`asked
      ensures asked == old(asked) + StalePairs(tracker.State(), (set r | r in ids), {app}, now)
    {
      for i := 0 to |ids|
        invariant asked == old(asked) + StalePairs(tracker.State(), (set r | r in ids[..i]), {app}, now)
      {
        assert ids[..i + 1] == ids[..i] + [ids[i]];
        RequestAppAvailability(ids[i], app, now);
      }
      assert ids[..|ids|] == ids;
    }

    /** Requests for all pairs, app by app. */
    method RequestAll(ids: seq<Id>, apps: seq<Id>, now: Time)
      modifies this`asked
      ensures asked == old(asked) + StalePairs(tracker.State(), (set r | r in ids), (set a | a in apps), now)
    {
      for i := 0 to |apps|
        invariant asked == old(asked) + StalePairs(tracker.State(), (set r | r in ids), (set a | a in apps[..i]), now)
      {
        assert apps[..i + 1] == apps[..i] + [apps[i]];
        RequestReceivers(ids, apps[i], now);
      }
      assert apps[..|apps|] == apps;
    }

    /** Cached results, if there are any, go to the new observer at once. */
    method TellCached(source: Source)
      modifies this`told
      ensures told == Enter(old(State()), source).told
    {
      var cached := tracker.GetAvailableReceivers(source);
      if cached != [] {
        var infos := GetReceiversByIds(cached);
        told := told[nextQuery := infos];
      }
    }

    method EnterCallback(source: Source) returns (first: bool)
      modifies this`queries, this`nextQuery
      ensures queries == Enter(old(State()), source).queries && nextQuery == old(nextQuery) + 1
      ensures first == IsFirst(old(State()), source)
    {
      var callbacks := (if source.id in queries then queries[source.id] else []) + [nextQuery];
      nextQuery := nextQuery + 1;
      queries := queries[source.id := callbacks];
      first := |callbacks| == 1;
    }

    method EnterObserver(source: Source) returns (first: bool, newAppIds: seq<Id>)
      requires Valid()
      modifies this, tracker
      ensures Valid()
      ensures State() == Enter(old(State()), source)
      ensures first == IsFirst(old(State()), source)
      ensures first ==> newAppIds == NewAppIds(old(tracker.State()), source)
    {
      TellCached(source);
      first := EnterCallback(source);
      newAppIds := [];
      if first {
        TrackerProofs.RegisterKeepsCounts(tracker.State(), source);
        newAppIds := tracker.RegisterSource(source);
      }
    }

    method StartObservingAvailability(source: Source, now: Time) returns (query: Query)
      requires Valid() && Enabled(State(), Start(source, now))
      modifies this, tracker
      ensures Valid() && query == old(nextQuery)
      ensures State() == StartObserving(old(State()), source, now)
    {
      query := nextQuery;
      var first, newAppIds := EnterObserver(source);
      if first {
        var ids := Sorted(receivers.Keys);
        assert (set r | r in ids) == receivers.Keys;
        RequestAll(ids, newAppIds, now);
      }
    }

    method RefreshApps(now: Time)
      requires Valid()
      modifies this`asked
      ensures State() == Refresh(old(State()), now)
    {
      var apps := tracker.GetRegisteredApps();
      var ids := Sorted(receivers.Keys);
      for i := 0 to |ids|
        invariant asked == old(asked) + StalePairs(tracker.State(), (set r | r in ids[..i]), (set a | a in apps), now)
      {
        assert ids[..i + 1] == ids[..i] + [ids[i]];
        OneMoreReceiver(tracker.State(), ids[..i], ids[i], (set a | a in apps), now);
        RequestApps(ids[i], apps, now);
      }
      assert ids[..|ids|] == ids;
      assert (set r | r in ids) == receivers.Keys;
    }

    method AddOrUpdateReceiver(info: Info, now: Time)
      requires Valid()
      modifies this
      ensures Valid()
      ensures State() == DiscoverySpec.AddOrUpdateReceiver(old(State()), info, now)
    {
      receivers := receivers[info.id := info];
      var supported := tracker.GetSupportedSources(info.id);
      ReportedIds(tracker.registered, SourcesSupportedBy(tracker.State(), info.id), supported);
      UpdateAvailabilityQueries(supported, TrackerSpec.GetSupportedSources(tracker.State(), info.id));
      var apps := tracker.GetRegisteredApps();
      RequestApps(info.id, apps, now);
    }

    method RemoveReceiver(info: Info)
      requires Valid()
      modifies this, tracker
      ensures Valid()
      ensures State() == DiscoverySpec.RemoveReceiver(old(State()), info.id)
    {
      ghost var s := State();
      receivers := receivers - {info.id};
      asked := set p | p in asked && p.0 != info.id;
      var affected := tracker.RemoveResultsForReceiver(info.id);
      ReportedIds(tracker.registered, SourcesSupportedBy(s.tracker, info.id), affected);
      UpdateAvailabilityQueries(affected, TrackerSpec.GetSupportedSources(s.tracker, info.id));
    }

    /** The callback of a request to the platform client. */
    method UpdateAppAvailability(receiver: Id, app: Id, availability: AppAvailability, now: Time)
      requires Valid()
      modifies this, tracker
      ensures Valid()
      ensures State() == HandleAnswer(old(State()), receiver, app, availability, now)
    {
      if receiver !in receivers {
        return;
      }
      ghost var s := State();
      asked := asked - {(receiver, app)};
      var affected := tracker.UpdateAppAvailability(receiver, app, Result(availability, now));
      ReportedIds(tracker.registered, SourcesUpdatedBy(s.tracker, receiver, app, Result(availability, now)), affected);
      UpdateAvailabilityQueries(affected, AffectedByUpdate(s.tracker, receiver, app, Result(availability, now)));
    }

    /** The first source with this query, in key order; there is none if no observer has it. */
    method FindQuery(query: Query) returns (found: bool, id: Id)
      ensures found == (OwnersOf(State(), query) != {})
      ensures found ==> id == MinKey(OwnersOf(State(), query)) && id in queries
    {
      ghost var owners := OwnersOf(State(), query);
      var keys := Sorted(queries.Keys);
      MembersAt(keys, queries.Keys);
      found, id := false, 0;
      for k := 0 to |keys|
        invariant forall j :: 0 <= j < k ==> keys[j] !in owners
      {
        if query in queries[keys[k]] {
          FirstWanted(keys, k, owners);
          assert keys[k] in owners;
          return true, keys[k];
        }
      }
      NobodyWanted(keys, owners);
    }

    method RemoveAvailabilityCallback(query: Query)
      requires Valid()
      modifies this, tracker
      ensures Valid()
      ensures State() == StopObserving(old(State()), query)
    {
      var found, id := FindQuery(query);
      if found {
        var rest := Erase(queries[id], query);
        if rest == [] {
          TrackerProofs.UnregisterKeepsCounts(tracker.State(), id);
          tracker.UnregisterSource(id);
          queries := queries - {id};
        } else {
          queries := queries[id := rest];
        }
      }
    }
  }
}

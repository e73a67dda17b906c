/** cast/sender/cast_app_availability_tracker.cc in its own form: three maps and their loops. */
module TrackerImpl {
  import opened SortedKeys
  import opened TrackerSpec
  import TrackerProofs

  /** The registered sources with these ids. */
  function SourcesAt(registered: map<Id, Source>, ids: seq<Id>): (r: seq<Source>)
    requires forall i :: 0 <= i < |ids| ==> ids[i] in registered
    ensures |r| == |ids|
  {
    seq(|ids|, i requires 0 <= i < |ids| => registered[ids[i]])
  }

  /** `sources` are the registered sources with the ids in `target`, in ascending order. */
  ghost predicate AreSources(registered: map<Id, Source>, target: set<Id>, sources: seq<Source>) {
    && (forall i :: 0 <= i < |Sorted(target)| ==> Sorted(target)[i] in registered)
    && sources == SourcesAt(registered, Sorted(target))
  }

  /** `picked` are, in order, those of the first `k` keys that are in `target`. */
  ghost predicate Picked(picked: seq<Id>, keys: seq<Id>, k: nat, target: set<Id>)
    requires k <= |keys|
  {
    Ascending(picked) && forall x :: x in picked <==> x in keys[..k] && x in target
  }

  lemma PickNext(keys: seq<Id>, k: nat, picked: seq<Id>, target: set<Id>)
    requires Ascending(keys) && k < |keys| && Picked(picked, keys, k, target)
    ensures Picked(if keys[k] in target then picked + [keys[k]] else picked, keys, k + 1, target)
  {
    PrefixGrows(keys, k);
    if keys[k] in target {
      AppendLarger(keys, k, picked);
    }
  }

  /** After the walk just the ids in `target` have been picked. */
  lemma AllPicked(keys: seq<Id>, picked: seq<Id>, target: set<Id>)
    requires Picked(picked, keys, |keys|, target) && forall x :: x in target ==> x in keys
    ensures picked == Sorted(target)
  {
    assert keys[..|keys|] == keys;
    AscendingIsUnique(picked, Sorted(target));
  }

  lemma SourcesAppend(registered: map<Id, Source>, ids: seq<Id>, id: Id)
    requires id in registered && forall i :: 0 <= i < |ids| ==> ids[i] in registered
    ensures forall i :: 0 <= i < |ids + [id]| ==> (ids + [id])[i] in registered
    ensures SourcesAt(registered, ids + [id]) == SourcesAt(registered, ids) + [registered[id]]
  {
  }

  lemma AppendLarger(keys: seq<Id>, k: nat, picked: seq<Id>)
    requires Ascending(keys) && k < |keys| && Ascending(picked)
    requires forall x :: x in picked ==> x in keys[..k]
    ensures Ascending(picked + [keys[k]])
  {
    forall i | 0 <= i < |picked|
      ensures picked[i] < keys[k]
    {
      assert picked[i] in picked;
      var j :| 0 <= j < k && keys[j] == picked[i];
    }
  }

  lemma PrefixGrows(keys: seq<Id>, k: nat)
    requires k < |keys|
    ensures forall x :: x in keys[..k + 1] <==> x in keys[..k] || x == keys[k]
  {
    assert keys[..k + 1] == keys[..k] + [keys[k]];
  }

  class CastAppAvailabilityTracker {
    var registered: map<Id, Source>
    var counts: map<Id, nat>
    var results: map<Id, map<Id, Result>>

    ghost function State(): Tracker
      reads this
    {
      Tracker(registered, counts, results)
    }

    constructor ()
      ensures State() == Empty()
    {
      registered, counts, results := map[], map[], map[];
    }

    method RegisterSource(source: Source) returns (newAppIds: seq<Id>)
      requires TrackerProofs.CountsExact(State())
      modifies this
      ensures State() == TrackerSpec.RegisterSource(old(State()), source)
      ensures newAppIds == NewAppIds(old(State()), source)
    {
      if source.id in registered {
        return [];
      }
      registered := registered[source.id := source];
      counts, newAppIds := CountUp(counts, source.appIds);
    }

    static method CountUp(before: map<Id, nat>, apps: seq<Id>) returns (counts: map<Id, nat>, newAppIds: seq<Id>)
      requires forall a :: a in before ==> before[a] > 0
      ensures counts == AddCounts(before, apps)
      ensures newAppIds == NewApps(before, apps)
    {
      counts, newAppIds := before, [];
      TrackerProofs.CountNothing(before, apps[..0]);
      for i := 0 to |apps|
        invariant counts == AddCounts(before, apps[..i])
        invariant newAppIds == NewApps(before, apps[..i])
      {
        assert apps[..i + 1] == apps[..i] + [apps[i]];
        counts, newAppIds := CountOne(before, apps[..i], counts, newAppIds, apps[i]);
      }
      assert apps[..|apps|] == apps;
    }

    /** One round of the loop, after those for the ids `done`. */
    static method CountOne(ghost before: map<Id, nat>, ghost done: seq<Id>, counts: map<Id, nat>, newAppIds: seq<Id>, app: Id)
      returns (counts': map<Id, nat>, newAppIds': seq<Id>)
      requires forall a :: a in before ==> before[a] > 0
      requires counts == AddCounts(before, done) && newAppIds == NewApps(before, done)
      ensures counts' == AddCounts(before, done + [app]) && newAppIds' == NewApps(before, done + [app])
    {
      var count := CountOf(counts, app) + 1;
      counts', newAppIds' := counts[app := count], if count == 1 then newAppIds + [app] else newAppIds;
      TrackerProofs.CountRound(before, done, counts, newAppIds, app);
    }

    method UnregisterSource(id: Id)
      requires TrackerProofs.CountsExact(State())
      modifies this
      ensures State() == TrackerSpec.UnregisterSource(old(State()), id)
    {
      if id !in registered {
        return;
      }
      TrackerProofs.UnregisterKeepsCounts(State(), id);
      counts := CountDown(counts, registered[id].appIds);
      registered := registered - {id};
    }

    static method CountDown(before: map<Id, nat>, apps: seq<Id>) returns (counts: map<Id, nat>)
      requires forall a :: a in before ==> before[a] > 0
      requires TrackerProofs.Covers(before, apps)
      ensures counts == SubtractCounts(before, apps)
    {
      counts := before;
      TrackerProofs.CountNothing(before, apps[..0]);
      for i := 0 to |apps|
        invariant counts == SubtractCounts(before, apps[..i])
      {
        TrackerProofs.CountOneLess(before, apps, i);
        if counts[apps[i]] == 1 {
          counts := counts - {apps[i]};
        } else {
          counts := counts[apps[i] := counts[apps[i]] - 1];
        }
      }
      assert apps[..|apps|] == apps;
    }

    /** The registered sources that satisfy `wanted`, found by walking the registry. */
    method SelectSources(wanted: Source -> bool, ghost target: set<Id>) returns (sources: seq<Source>)
      requires target <= registered.Keys
      requires forall s :: s in registered ==> (s in target <==> wanted(registered[s]))
      ensures AreSources(registered, target, sources)
    {
      var keys := Sorted(registered.Keys);
      MembersAt(keys, registered.Keys);
      sources := [];
      ghost var ids := [];
      for k := 0 to |keys|
        invariant Picked(ids, keys, k, target)
        invariant forall i :: 0 <= i < |ids| ==> ids[i] in registered
        invariant sources == SourcesAt(registered, ids)
      {
        PickNext(keys, k, ids, target);
        if wanted(registered[keys[k]]) {
          SourcesAppend(registered, ids, keys[k]);
          sources := sources + [registered[keys[k]]];
          ids := ids + [keys[k]];
        }
      }
      AllPicked(keys, ids, target);
    }

    method UpdateAppAvailability(receiver: Id, app: Id, result: Result) returns (affected: seq<Source>)
      modifies this
      ensures State() == TrackerSpec.UpdateAppAvailability(old(State()), receiver, app, result)
      ensures AreSources(registered, SourcesUpdatedBy(old(State()), receiver, app, result), affected)
    {
      var availabilities := if receiver in results then results[receiver] else map[];
      var before := if app in availabilities then availabilities[app].availability else Unknown;
      var updated := (before.Available? || result.availability.Available?) && before != result.availability;
      results := results[receiver := availabilities[app := result]];
      if !updated {
        return [];
      }
      affected := SelectSources((s: Source) => app in s.appIds,
                                SourcesUpdatedBy(old(State()), receiver, app, result));
    }

    method RemoveResultsForReceiver(receiver: Id) returns (affected: seq<Source>)
      modifies this
      ensures State() == TrackerSpec.RemoveResultsForReceiver(old(State()), receiver)
      ensures AreSources(registered, SourcesSupportedBy(old(State()), receiver), affected)
    {
      affected := GetSupportedSources(receiver);
      results := results - {receiver};
    }

    method GetSupportedSources(receiver: Id) returns (sources: seq<Source>)
      ensures AreSources(registered, SourcesSupportedBy(State(), receiver), sources)
    {
      if receiver !in results {
        assert forall s :: s in registered ==> !HasAvailable(ResultsOf(State(), receiver), registered[s].appIds);
        assert SourcesSupportedBy(State(), receiver) == {};
        return [];
      }
      var supported := SupportedApps(results[receiver]);
      sources := SelectSources((s: Source) => exists a :: a in s.appIds && a in supported,
                               SourcesSupportedBy(State(), receiver));
    }

    /** The first loop: all app ids that are available on a receiver. */
    static method SupportedApps(availabilities: map<Id, Result>) returns (supported: seq<Id>)
      ensures forall x :: x in supported <==> IsAvailable(availabilities, x)
    {
      var keys := Sorted(availabilities.Keys);
      MembersAt(keys, availabilities.Keys);
      supported := [];
      for k := 0 to |keys|
        invariant forall x :: x in supported <==> x in keys[..k] && IsAvailable(availabilities, x)
      {
        PrefixGrows(keys, k);
        if availabilities[keys[k]].availability.Available? {
          supported := supported + [keys[k]];
        }
      }
      assert keys[..|keys|] == keys;
    }

    method GetAvailableReceivers(source: Source) returns (receivers: seq<Id>)
      ensures receivers == TrackerSpec.GetAvailableReceivers(State(), source)
    {
      var keys := Sorted(results.Keys);
      MembersAt(keys, results.Keys);
      receivers := [];
      for k := 0 to |keys|
        invariant Picked(receivers, keys, k, ReceiversFor(State(), source))
      {
        PickNext(keys, k, receivers, ReceiversFor(State(), source));
        var found := AnyAvailable(results[keys[k]], source.appIds);
        if found {
          receivers := receivers + [keys[k]];
        }
      }
      AllPicked(keys, receivers, ReceiversFor(State(), source));
    }

    /** The inner loop, which stops at the first available app. */
    static method AnyAvailable(availabilities: map<Id, Result>, apps: seq<Id>) returns (found: bool)
      ensures found == HasAvailable(availabilities, apps)
    {
      found := false;
      for i := 0 to |apps|
        invariant forall k :: 0 <= k < i ==> !IsAvailable(availabilities, apps[k])
      {
        if apps[i] in availabilities && availabilities[apps[i]].availability.Available? {
          assert apps[i] in apps && IsAvailable(availabilities, apps[i]);
          return true;
        }
      }
    }

    method GetRegisteredApps() returns (apps: seq<Id>)
      ensures Ascending(apps) && (set a | a in apps) == counts.Keys
    {
      apps := Sorted(counts.Keys);
    }
  }
}

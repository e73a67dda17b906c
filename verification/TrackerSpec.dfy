/**
 cast/sender/cast_app_availability_tracker.cc: the reference-counted registry of sources
 and the cache of availability results per receiver.
 */
module TrackerSpec {
  import opened Common
  import opened SortedKeys

  datatype AppAvailability = Available | Unavailable | Unknown

  datatype Result = Result(availability: AppAvailability, time: Time)

  datatype Source = Source(id: Id, appIds: seq<Id>)

  datatype Tracker = Tracker(
    registered: map<Id, Source>,        // registered_sources_
    counts: map<Id, nat>,               // registration_count_by_app_id_
    results: map<Id, map<Id, Result>>   // app_availabilities_
  )

  function Empty(): Tracker {
    Tracker(map[], map[], map[])
  }

  function CountOf(counts: map<Id, nat>, app: Id): nat {
    if app in counts then counts[app] else 0
  }

  function AddCounts(counts: map<Id, nat>, apps: seq<Id>): map<Id, nat> {
    map a | a in counts.Keys + (set x | x in apps) :: CountOf(counts, a) + multiset(apps)[a]
  }

  function SubtractCounts(counts: map<Id, nat>, apps: seq<Id>): map<Id, nat> {
    map a | a in counts && counts[a] > multiset(apps)[a] :: counts[a] - multiset(apps)[a]
  }

  /** The ids of `apps` that nobody has registered before, each once, in order. */
  function NewApps(counts: map<Id, nat>, apps: seq<Id>): seq<Id> {
    if apps == [] then []
    else
      var before, a := apps[..|apps| - 1], apps[|apps| - 1];
      NewApps(counts, before) + if a !in counts && a !in before then [a] else []
  }

  function RegisterSource(t: Tracker, source: Source): Tracker {
    if source.id in t.registered then t
    else t.(registered := t.registered[source.id := source], counts := AddCounts(t.counts, source.appIds))
  }

  function NewAppIds(t: Tracker, source: Source): seq<Id> {
    if source.id in t.registered then [] else NewApps(t.counts, source.appIds)
  }

  function UnregisterSource(t: Tracker, id: Id): Tracker {
    if id !in t.registered then t
    else t.(registered := t.registered - {id}, counts := SubtractCounts(t.counts, t.registered[id].appIds))
  }

  predicate IsAvailable(results: map<Id, Result>, app: Id) {
    app in results && results[app].availability.Available?
  }

  predicate HasAvailable(results: map<Id, Result>, apps: seq<Id>) {
    exists a :: a in apps && IsAvailable(results, a)
  }

  function ResultsOf(t: Tracker, receiver: Id): map<Id, Result> {
    if receiver in t.results then t.results[receiver] else map[]
  }

  function GetAvailability(t: Tracker, receiver: Id, app: Id): Result {
    if app in ResultsOf(t, receiver) then ResultsOf(t, receiver)[app] else Result(Unknown, 0)
  }

  function ReceiversFor(t: Tracker, source: Source): set<Id> {
    set r | r in t.results && HasAvailable(t.results[r], source.appIds)
  }

  function GetAvailableReceivers(t: Tracker, source: Source): seq<Id> {
    Sorted(ReceiversFor(t, source))
  }

  function SourcesSupportedBy(t: Tracker, receiver: Id): set<Id> {
    set s | s in t.registered && HasAvailable(ResultsOf(t, receiver), t.registered[s].appIds)
  }

  /** The registry is walked in ascending order of source ids. */
  function GetSupportedSources(t: Tracker, receiver: Id): seq<Id> {
    Sorted(SourcesSupportedBy(t, receiver))
  }

  function UpdateAppAvailability(t: Tracker, receiver: Id, app: Id, result: Result): Tracker {
    t.(results := t.results[receiver := ResultsOf(t, receiver)[app := result]])
  }

  /** Availability changes from or to "available". */
  predicate IsUpdate(before: AppAvailability, after: AppAvailability) {
    (before.Available? || after.Available?) && before != after
  }

  function SourcesUpdatedBy(t: Tracker, receiver: Id, app: Id, result: Result): set<Id> {
    if IsUpdate(GetAvailability(t, receiver, app).availability, result.availability)
    then set s | s in t.registered && app in t.registered[s].appIds
    else {}
  }

  function AffectedByUpdate(t: Tracker, receiver: Id, app: Id, result: Result): seq<Id> {
    Sorted(SourcesUpdatedBy(t, receiver, app, result))
  }

  function RemoveResultsForReceiver(t: Tracker, receiver: Id): Tracker {
    t.(results := t.results - {receiver})
  }
}

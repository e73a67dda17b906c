/**
 cast/sender/cast_app_discovery_service_impl.cc: observers of a source are told which
 receivers can run it.  What an observer's callback last received is kept in `told`, and
 the pairs of present receiver and app that the platform client has been asked about and has
 not answered since in `asked`.
 */
module DiscoverySpec {
  import opened Common
  import opened SortedKeys
  import opened TrackerSpec

  /** ReceiverInfo: the unique id, and everything else about the receiver. */
  datatype Info = Info(id: Id, details: int)

  type Query = int

  datatype Service = Service(
    receivers: map<Id, Info>,        // receivers_by_id_
    queries: map<Id, seq<Query>>,    // avail_queries_
    nextQuery: Query,                // next_avail_query_id_
    tracker: Tracker,                // availability_tracker_
    told: map<Query, seq<Info>>,
    asked: set<(Id, Id)>
  )

  const REFRESH_THRESHOLD: Time := 60_000_000

  function Initial(): Service {
    Service(map[], map[], 1, Empty(), map[], {})
  }

  /** GetReceiversByIds. */
  function ByIds(receivers: map<Id, Info>, ids: seq<Id>): seq<Info> {
    if ids == [] then []
    else ByIds(receivers, ids[..|ids| - 1]) +
         if ids[|ids| - 1] in receivers then [receivers[ids[|ids| - 1]]] else []
  }

  /** The answer to the query for `source`, as of now. */
  function CurrentList(receivers: map<Id, Info>, t: Tracker, source: Source): seq<Info> {
    ByIds(receivers, GetAvailableReceivers(t, source))
  }

  /** What the observer knows: nothing, until its callback is called. */
  function Knows(s: Service, q: Query): seq<Info> {
    if q in s.told then s.told[q] else []
  }

  /** One list for a number of callbacks. */
  function TellAll(callbacks: seq<Query>, infos: seq<Info>): map<Query, seq<Info>> {
    map q | q in callbacks :: infos
  }

  /** UpdateAvailabilityQueries, after the first `n` sources. */
  function ToldAfter(s: Service, sources: seq<Id>, n: nat): map<Query, seq<Info>>
    requires n <= |sources|
  {
    if n == 0 then s.told
    else
      var id := sources[n - 1];
      ToldAfter(s, sources, n - 1) +
      if id in s.queries && id in s.tracker.registered
      then TellAll(s.queries[id], CurrentList(s.receivers, s.tracker, s.tracker.registered[id]))
      else map[]
  }

  function Notify(s: Service, sources: seq<Id>): Service {
    s.(told := ToldAfter(s, sources, |sources|))
  }

  predicate ShouldRefresh(t: Tracker, receiver: Id, app: Id, now: Time) {
    match GetAvailability(t, receiver, app).availability
    case Available => false
    case Unavailable => now - GetAvailability(t, receiver, app).time > REFRESH_THRESHOLD
    case Unknown => true
  }

  /** RequestAppAvailability for each of these receivers and apps. */
  function Ask(s: Service, receivers: set<Id>, apps: set<Id>, now: Time): Service {
    s.(asked := s.asked + StalePairs(s.tracker, receivers, apps, now))
  }

  function StalePairs(t: Tracker, receivers: set<Id>, apps: set<Id>, now: Time): set<(Id, Id)> {
    set r, a | r in receivers && a in apps && ShouldRefresh(t, r, a, now) :: (r, a)
  }

  /** The first observer of a source registers it. */
  predicate IsFirst(s: Service, source: Source) {
    source.id !in s.queries || s.queries[source.id] == []
  }

  /** The new observer is told cached results, if there are any, and entered. */
  function Enter(s: Service, source: Source): Service {
    var cached := GetAvailableReceivers(s.tracker, source);
    s.(told := if cached != [] then s.told[s.nextQuery := ByIds(s.receivers, cached)] else s.told,
       queries := s.queries[source.id := (if source.id in s.queries then s.queries[source.id] else []) + [s.nextQuery]],
       nextQuery := s.nextQuery + 1,
       tracker := if IsFirst(s, source) then RegisterSource(s.tracker, source) else s.tracker)
  }

  function StartObserving(s: Service, source: Source, now: Time): Service {
    if IsFirst(s, source)
    then Ask(Enter(s, source), s.receivers.Keys, (set a | a in NewAppIds(s.tracker, source)), now)
    else Enter(s, source)
  }

  /** The list without the first occurrence of `q`. */
  function Erase(l: seq<Query>, q: Query): seq<Query> {
    if l == [] then [] else if l[0] == q then l[1..] else [l[0]] + Erase(l[1..], q)
  }

  function OwnersOf(s: Service, q: Query): set<Id> {
    set id | id in s.queries && q in s.queries[id]
  }

  /** RemoveAvailabilityCallback. */
  function StopObserving(s: Service, q: Query): Service {
    if OwnersOf(s, q) == {} then s
    else
      var id := MinKey(OwnersOf(s, q));
      var rest := Erase(s.queries[id], q);
      if rest == [] then s.(queries := s.queries - {id}, tracker := UnregisterSource(s.tracker, id))
      else s.(queries := s.queries[id := rest])
  }

  function AddOrUpdateReceiver(s: Service, info: Info, now: Time): Service {
    var s1 := s.(receivers := s.receivers[info.id := info]);
    var s2 := Notify(s1, GetSupportedSources(s.tracker, info.id));
    Ask(s2, {info.id}, s2.tracker.counts.Keys, now)
  }

  function RemoveReceiver(s: Service, id: Id): Service {
    var s1 := s.(receivers := s.receivers - {id},
                 tracker := RemoveResultsForReceiver(s.tracker, id),
                 asked := set p | p in s.asked && p.0 != id);
    Notify(s1, GetSupportedSources(s.tracker, id))
  }

  /** The platform client's answer, which may come when the receiver is gone. */
  function HandleAnswer(s: Service, receiver: Id, app: Id, availability: AppAvailability, now: Time): Service {
    if receiver !in s.receivers then s
    else
      var result := Result(availability, now);
      Notify(s.(tracker := UpdateAppAvailability(s.tracker, receiver, app, result), asked := s.asked - {(receiver, app)}),
             AffectedByUpdate(s.tracker, receiver, app, result))
  }

  function Refresh(s: Service, now: Time): Service {
    Ask(s, s.receivers.Keys, s.tracker.counts.Keys, now)
  }

  datatype Event =
    | Start(source: Source, now: Time)
    | Stop(query: Query)
    | Add(info: Info, now: Time)
    | Remove(receiver: Id)
    | Answer(receiver: Id, app: Id, availability: AppAvailability, now: Time)
    | RefreshAll(now: Time)

  /** Equal source ids mean equal app ids. */
  predicate Enabled(s: Service, e: Event) {
    e.Start? && e.source.id in s.tracker.registered ==> s.tracker.registered[e.source.id] == e.source
  }

  function Step(s: Service, e: Event): Service {
    match e
    case Start(source, now) => StartObserving(s, source, now)
    case Stop(query) => StopObserving(s, query)
    case Add(info, now) => AddOrUpdateReceiver(s, info, now)
    case Remove(receiver) => RemoveReceiver(s, receiver)
    case Answer(receiver, app, availability, now) => HandleAnswer(s, receiver, app, availability, now)
    case RefreshAll(now) => Refresh(s, now)
  }

  ghost predicate IsRun(ss: seq<Service>, es: seq<Event>) {
    && |ss| == |es| + 1
    && ss[0] == Initial()
    && forall i :: 0 <= i < |es| ==> Enabled(ss[i], es[i]) && ss[i + 1] == Step(ss[i], es[i])
  }
}

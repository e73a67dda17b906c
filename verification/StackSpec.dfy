/**
 The discovery service on top of the platform client: what the service asks becomes requests of
 the client, and the callbacks of the client's requests are answers to the service.  A request
 for a receiver that the client does not know calls back at once, before it returns.
 */
module StackSpec {
  import opened Common
  import opened SortedKeys
  import C = ClientSpec
  import D = DiscoverySpec
  import TrackerSpec

  type Pair = (Id, Id)

  datatype Stack = Stack(
    service: D.Service,
    client: C.Client,
    owners: map<C.RequestId, Pair>  // which receiver and app each request is about
  )

  function Initial(now: Time, nextId: C.RequestId): Stack {
    Stack(D.Initial(), C.Initial(now, nextId), map[])
  }

  /** The pairs about which an event makes the service ask. */
  function Requests(s: D.Service, e: D.Event): set<Pair> {
    match e
    case Start(source, now) =>
      if D.IsFirst(s, source)
      then D.StalePairs(D.Enter(s, source).tracker, s.receivers.Keys, (set a | a in TrackerSpec.NewAppIds(s.tracker, source)), now)
      else {}
    case Add(info, now) => D.StalePairs(s.tracker, {info.id}, s.tracker.counts.Keys, now)
    case RefreshAll(now) => D.StalePairs(s.tracker, s.receivers.Keys, s.tracker.counts.Keys, now)
    case _ => {}
  }

  function AskOne(s: Stack, p: Pair): Stack {
    var client := C.Step(s.client, C.Issue(p.0, p.1));
    if p.0 in s.client.sockets
    then Stack(s.service, client, s.owners[s.client.nextId := p])
    else Stack(D.HandleAnswer(s.service, p.0, p.1, TrackerSpec.Unknown, s.client.now), client, s.owners)
  }

  function AskAll(s: Stack, order: seq<Pair>): Stack
    decreases |order|
  {
    if order == [] then s else AskAll(AskOne(s, order[0]), order[1..])
  }

  function DeliverOne(s: D.Service, owners: map<C.RequestId, Pair>, a: C.Answer, now: Time): D.Service {
    if a.request.Some? && a.request.value in owners
    then D.HandleAnswer(s, owners[a.request.value].0, a.app, a.availability, now)
    else s
  }

  /** The callbacks that have run, one after the other. */
  function Deliver(s: D.Service, owners: map<C.RequestId, Pair>, answers: seq<C.Answer>, now: Time): D.Service
    decreases |answers|
  {
    if answers == [] then s else Deliver(DeliverOne(s, owners, answers[0], now), owners, answers[1..], now)
  }

  datatype Event =
    | Above(de: D.Event, order: seq<Pair>)  // at the service; the order in which it asks
    | Below(ce: C.Event)                    // at the client

  predicate Enabled(s: Stack, e: Event) {
    match e
    case Above(de, order) =>
      !de.Answer? && D.Enabled(s.service, de) && s.client.alive && (set p | p in order) == Requests(s.service, de)
    case Below(ce) => !ce.Issue? && C.Enabled(s.client, ce)
  }

  function Step(s: Stack, e: Event): Stack
    requires Enabled(s, e)
  {
    match e
    case Above(de, order) => AskAll(s.(service := D.Step(s.service, de)), order)
    case Below(ce) =>
      var client := C.Step(s.client, ce);
      var answers := if |s.client.answers| <= |client.answers| then client.answers[|s.client.answers|..] else [];
      Stack(Deliver(s.service, s.owners, answers, client.now), client, s.owners)
  }

  ghost predicate IsRun(ss: seq<Stack>, es: seq<Event>) {
    && |ss| == |es| + 1
    && ss[0] == Initial(ss[0].client.now, ss[0].client.nextId)
    && forall i :: 0 <= i < |es| ==> Enabled(ss[i], es[i]) && ss[i + 1] == Step(ss[i], es[i])
  }
}

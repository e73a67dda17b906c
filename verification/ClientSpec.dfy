/**
 cast/sender/cast_platform_client.cc: the table of pending availability requests.

 The callbacks that have run are kept in `answers`, and the requests that were given up
 without running their callback in `dropped`.  A request's timeout alarm lives and dies
 with its table entry, so it can only go off while the request is pending.
 */
module ClientSpec {
  import opened Common
  import opened SortedKeys
  import TrackerSpec

  const REQUEST_TIMEOUT: Time := 5_000_000

  type RequestId = int

  datatype Request = Request(id: RequestId, app: Id, deadline: Time)

  /** A call of a callback; a request to an unknown receiver has no id. */
  datatype Answer = Answer(request: Option<RequestId>, app: Id, availability: TrackerSpec.AppAvailability)

  datatype Client = Client(
    alive: bool,
    now: Time,
    nextId: RequestId,                // next_request_id_, shared by all clients
    sockets: map<Id, int>,            // socket_id_by_receiver_id_
    pending: map<Id, seq<Request>>,   // pending_requests_by_receiver_id_
    issued: map<RequestId, Time>,     // when each request was made
    answers: seq<Answer>,
    dropped: seq<RequestId>
  )

  function Initial(now: Time, nextId: RequestId): Client {
    Client(true, now, nextId, map[], map[], map[], [], [])
  }

  /** What a reply says about an app, if it has a string entry for it. */
  datatype Word = AppAvailable | AppUnavailable | OtherWord

  type Reply = map<Id, Word>

  function Meaning(w: Word): TrackerSpec.AppAvailability {
    match w
    case AppAvailable => TrackerSpec.Available
    case AppUnavailable => TrackerSpec.Unavailable
    case OtherWord => TrackerSpec.Unknown
  }

  function PendingOf(c: Client, receiver: Id): seq<Request> {
    if receiver in c.pending then c.pending[receiver] else []
  }

  function Find(reqs: seq<Request>, id: RequestId): (i: nat)
    ensures i <= |reqs|
    ensures i < |reqs| ==> reqs[i].id == id
    ensures forall k :: 0 <= k < i ==> reqs[k].id != id
  {
    if reqs == [] || reqs[0].id == id then 0 else 1 + Find(reqs[1..], id)
  }

  predicate HasRequest(reqs: seq<Request>, id: RequestId) {
    Find(reqs, id) < |reqs|
  }

  /** The receivers at which the request is pending. */
  function Holders(c: Client, id: RequestId): set<Id> {
    set r | r in c.pending && HasRequest(c.pending[r], id)
  }

  /** Takes the request out of a receiver's list. */
  function Erase(c: Client, r: Id, id: RequestId): Client
    requires r in c.pending && HasRequest(c.pending[r], id)
  {
    var i := Find(c.pending[r], id);
    c.(pending := c.pending[r := c.pending[r][..i] + c.pending[r][i + 1..]])
  }

  /** `reqs` are all answered with "unknown". */
  function GiveUp(reqs: seq<Request>): (a: seq<Answer>)
    ensures |a| == |reqs|
  {
    seq(|reqs|, i requires 0 <= i < |reqs| => Answer(Some(reqs[i].id), reqs[i].app, TrackerSpec.Unknown))
  }

  function RequestAvailability(c: Client, receiver: Id, app: Id): Client {
    if receiver !in c.sockets then
      c.(answers := c.answers + [Answer(None, app, TrackerSpec.Unknown)])
    else
      c.(nextId := c.nextId + 1,
         issued := c.issued[c.nextId := c.now],
         pending := c.pending[receiver := PendingOf(c, receiver) + [Request(c.nextId, app, c.now + REQUEST_TIMEOUT)]])
  }

  function RemoveReceiver(c: Client, receiver: Id): Client {
    c.(answers := c.answers + GiveUp(PendingOf(c, receiver)),
       pending := c.pending - {receiver},
       sockets := c.sockets - {receiver})
  }

  function CancelRequest(c: Client, id: RequestId): Client {
    if Holders(c, id) == {} then c
    else Erase(c, MinKey(Holders(c, id)), id).(dropped := c.dropped + [id])
  }

  function HandleResponse(c: Client, receiver: Id, id: RequestId, reply: Reply): Client {
    if !HasRequest(PendingOf(c, receiver), id) then c
    else
      var app := c.pending[receiver][Find(c.pending[receiver], id)].app;
      if app in reply
      then Erase(c, receiver, id).(answers := c.answers + [Answer(Some(id), app, Meaning(reply[app]))])
      else Erase(c, receiver, id).(dropped := c.dropped + [id])
  }

  /** The receivers that are reached over a socket. */
  function ReceiversOn(c: Client, socket: int): set<Id> {
    set r | r in c.sockets && c.sockets[r] == socket
  }

  /** OnMessage: the reply goes to the first receiver that uses the socket. */
  function HandleMessage(c: Client, socket: int, id: RequestId, reply: Reply): Client {
    if ReceiversOn(c, socket) == {} then c
    else HandleResponse(c, MinKey(ReceiversOn(c, socket)), id, reply)
  }

  /** CancelAppAvailabilityRequest, when the request's alarm goes off. */
  function HandleTimeout(c: Client, id: RequestId): Client {
    if Holders(c, id) == {} then c
    else
      var r := MinKey(Holders(c, id));
      var app := c.pending[r][Find(c.pending[r], id)].app;
      Erase(c, r, id).(answers := c.answers + [Answer(Some(id), app, TrackerSpec.Unknown)])
  }

  function AllPending(pending: map<Id, seq<Request>>, receivers: seq<Id>): seq<Request> {
    if receivers == [] then []
    else
      var r := receivers[|receivers| - 1];
      AllPending(pending, receivers[..|receivers| - 1]) + if r in pending then pending[r] else []
  }

  /** The destructor. */
  function DestroyClient(c: Client): Client {
    c.(alive := false,
       answers := c.answers + GiveUp(AllPending(c.pending, Sorted(c.pending.Keys))),
       pending := map[])
  }

  datatype Event =
    | Tick(elapsed: nat)
    | IssueElsewhere                       // another client takes an id
    | Issue(receiver: Id, app: Id)
    | AddOrUpdate(receiver: Id, socket: int)
    | Remove(receiver: Id)
    | Cancel(id: RequestId)
    | Message(socket: int, id: RequestId, reply: Reply)
    | Timeout(id: RequestId)
    | Destroy

  predicate Enabled(c: Client, e: Event) {
    match e
    case Tick(_) => true
    case IssueElsewhere => true
    case Timeout(id) =>
      c.alive && exists r :: r in Holders(c, id) && c.pending[r][Find(c.pending[r], id)].deadline <= c.now
    case _ => c.alive
  }

  function Step(c: Client, e: Event): Client {
    match e
    case Tick(elapsed) => c.(now := c.now + elapsed)
    case IssueElsewhere => c.(nextId := c.nextId + 1)
    case Issue(receiver, app) => RequestAvailability(c, receiver, app)
    case AddOrUpdate(receiver, socket) => c.(sockets := c.sockets[receiver := socket])
    case Remove(receiver) => RemoveReceiver(c, receiver)
    case Cancel(id) => CancelRequest(c, id)
    case Message(socket, id, reply) => HandleMessage(c, socket, id, reply)
    case Timeout(id) => HandleTimeout(c, id)
    case Destroy => DestroyClient(c)
  }

  ghost predicate IsRun(cs: seq<Client>, es: seq<Event>) {
    && |cs| == |es| + 1
    && cs[0] == Initial(cs[0].now, cs[0].nextId)
    && forall i :: 0 <= i < |es| ==> Enabled(cs[i], es[i]) && cs[i + 1] == Step(cs[i], es[i])
  }
}

/** What becomes of every request of the platform client, told from the events alone. */
module ClientHistory {
  import opened Common
  import opened SortedKeys
  import opened ClientSpec
  import opened ClientProofs
  import TrackerSpec

  // ----- the events -----

  /** The socket last given for a receiver that has not been removed since. */
  ghost function SocketOf(es: seq<Event>, r: Id): Option<int> {
    if es == [] then None
    else
      var before := SocketOf(es[..|es| - 1], r);
      match es[|es| - 1]
      case AddOrUpdate(x, socket) => if x == r then Some(socket) else before
      case Remove(x) => if x == r then None else before
      case _ => before
  }

  /** No receiver with a smaller id is reached over the socket, by which this one is. */
  ghost predicate IsReached(es: seq<Event>, r: Id, socket: int) {
    && SocketOf(es, r) == Some(socket)
    && forall x :: SocketOf(es, x) == Some(socket) ==> r <= x
  }

  ghost function Elapsed(es: seq<Event>): Time {
    if es == [] then 0 else Elapsed(es[..|es| - 1]) + if es[|es| - 1].Tick? then es[|es| - 1].elapsed else 0
  }

  /** The event makes a request: its receiver is known. */
  ghost predicate Makes(es: seq<Event>, e: Event) {
    e.Issue? && SocketOf(es, e.receiver).Some?
  }

  /** How many ids have been taken, by this client and the others. */
  ghost function Taken(es: seq<Event>): nat {
    if es == [] then 0
    else
      var earlier, e := es[..|es| - 1], es[|es| - 1];
      Taken(earlier) + if e.IssueElsewhere? || Makes(earlier, e) then 1 else 0
  }

  datatype Fate =
    | Unmade
    | Open(receiver: Id, app: Id, deadline: Time)
    | Answered(app: Id, availability: TrackerSpec.AppAvailability)
    | Lost

  /**
   What an event makes of a request: `made` says that the event makes it, at time `now`, and
   `reached` that the event is a message that reaches its receiver.
   */
  ghost function Next(before: Fate, e: Event, id: RequestId, made: bool, now: Time, reached: bool): Fate {
    if made && e.Issue? then Open(e.receiver, e.app, now + 5_000_000)
    else if !before.Open? then before
    else
      match e
      case Remove(r) => if r == before.receiver then Answered(before.app, TrackerSpec.Unknown) else before
      case Cancel(x) => if x == id then Lost else before
      case Timeout(x) => if x == id then Answered(before.app, TrackerSpec.Unknown) else before
      case Destroy => Answered(before.app, TrackerSpec.Unknown)
      case Message(_, x, reply) =>
        if x != id || !reached then before
        else if before.app !in reply then Lost
        else Answered(before.app,
                      match reply[before.app]
                      case AppAvailable => TrackerSpec.Available
                      case AppUnavailable => TrackerSpec.Unavailable
                      case OtherWord => TrackerSpec.Unknown)
      case _ => before
  }

  /** What has become of a request, of a client made at `start` with `first` as the next id. */
  ghost function FateOf(es: seq<Event>, first: RequestId, start: Time, id: RequestId): Fate {
    if es == [] then Unmade
    else
      var earlier, e := es[..|es| - 1], es[|es| - 1];
      var before := FateOf(earlier, first, start, id);
      Next(before, e, id, Makes(earlier, e) && id == first + Taken(earlier), start + Elapsed(earlier),
           before.Open? && e.Message? && IsReached(earlier, before.receiver, e.socket))
  }

  /** The apps asked about at receivers that are not known, in order. */
  ghost function Refused(es: seq<Event>): seq<Id> {
    if es == [] then []
    else
      var earlier, e := es[..|es| - 1], es[|es| - 1];
      Refused(earlier) + if e.Issue? && !Makes(earlier, e) then [e.app] else []
  }

  lemma LastEvent(es: seq<Event>, i: nat)
    requires 0 < i <= |es|
    ensures es[..i][..i - 1] == es[..i - 1] && es[..i][i - 1] == es[i - 1] && |es[..i]| == i
  {
  }

  // ----- sockets, the clock and the ids -----

  ghost function SocketIn(c: Client, r: Id): Option<int> {
    if r in c.sockets then Some(c.sockets[r]) else None
  }

  /** In every run the receivers known, and their sockets, are those last given and not removed. */
  lemma {:induction false} SocketsFollowEvents(cs: seq<Client>, es: seq<Event>, i: nat, r: Id)
    requires IsRun(cs, es) && i < |cs|
    ensures SocketIn(cs[i], r) == SocketOf(es[..i], r)
  {
    if i > 0 {
      SocketsFollowEvents(cs, es, i - 1, r);
      SocketStep(cs[i - 1], es[i - 1], r);
      LastEvent(es, i);
    }
  }

  lemma SocketStep(c: Client, e: Event, r: Id)
    ensures SocketIn(Step(c, e), r) ==
            match e {
              case AddOrUpdate(x, socket) => if x == r then Some(socket) else SocketIn(c, r)
              case Remove(x) => if x == r then None else SocketIn(c, r)
              case _ => SocketIn(c, r)
            }
  {
  }

  lemma ReachedFollowsEvents(cs: seq<Client>, es: seq<Event>, i: nat, r: Id, socket: int)
    requires IsRun(cs, es) && i < |cs|
    ensures Receives(cs[i], r, socket) <==> IsReached(es[..i], r, socket)
  {
    forall x
      ensures SocketIn(cs[i], x) == SocketOf(es[..i], x)
    {
      SocketsFollowEvents(cs, es, i, x);
    }
    assert forall x :: x in cs[i].sockets ==> SocketOf(es[..i], x) == Some(cs[i].sockets[x]);
  }

  lemma ClockStep(c: Client, e: Event)
    ensures Step(c, e).now == c.now + if e.Tick? then e.elapsed else 0
    ensures Step(c, e).nextId == c.nextId + if e.IssueElsewhere? || (e.Issue? && e.receiver in c.sockets) then 1 else 0
  {
  }

  lemma {:induction false} ClockFollowsEvents(cs: seq<Client>, es: seq<Event>, i: nat)
    requires IsRun(cs, es) && i < |cs|
    ensures cs[i].now == cs[0].now + Elapsed(es[..i]) && cs[i].nextId == cs[0].nextId + Taken(es[..i])
  {
    if i > 0 {
      ClockFollowsEvents(cs, es, i - 1);
      ClockStep(cs[i - 1], es[i - 1]);
      LastEvent(es, i);
      if es[i - 1].Issue? {
        SocketsFollowEvents(cs, es, i - 1, es[i - 1].receiver);
      }
    }
  }

  // ----- fates -----

  ghost predicate IsOpenAt(c: Client, id: RequestId, f: Fate, i: int)
    requires f.Open?
  {
    IsAt(c, id, f.receiver, i) && c.pending[f.receiver][i] == Request(id, f.app, f.deadline)
  }

  ghost predicate IsAnswerAt(c: Client, id: RequestId, f: Fate, n: int)
    requires f.Answered?
  {
    IsAnsweredAt(c.answers, id, n) && c.answers[n] == Answer(Some(id), f.app, f.availability)
  }

  ghost predicate HasFate(c: Client, id: RequestId, f: Fate) {
    match f
    case Unmade => id !in c.issued
    case Open(_, _, _) => exists i :: IsOpenAt(c, id, f, i)
    case Answered(_, _) => exists n :: IsAnswerAt(c, id, f, n)
    case Lost => IsDropped(c, id)
  }

  /** A request has one fate. */
  lemma OneFate(c: Client, id: RequestId, f: Fate, g: Fate)
    requires Inv(c) && HasFate(c, id, f) && HasFate(c, id, g)
    ensures f == g
  {
    if f.Open? {
      var i :| IsOpenAt(c, id, f, i);
      assert IsPending(c, id);
    }
    if g.Open? {
      var j :| IsOpenAt(c, id, g, j);
      assert IsPending(c, id);
    }
    if f.Answered? {
      var n :| IsAnswerAt(c, id, f, n);
      assert IsAnswered(c, id);
    }
    if g.Answered? {
      var m :| IsAnswerAt(c, id, g, m);
      assert IsAnswered(c, id);
    }
  }

  lemma OnlyFate(c: Client, id: RequestId, fate: Fate)
    requires Inv(c) && HasFate(c, id, fate)
    ensures forall f :: HasFate(c, id, f) <==> f == fate
  {
    forall f | HasFate(c, id, f)
      ensures f == fate
    {
      OneFate(c, id, f, fate);
    }
  }

  /** What is decided stays so. */
  lemma DecidedStays(c: Client, e: Event, id: RequestId, f: Fate)
    requires HasFate(c, id, f) && (f.Answered? || f.Lost?)
    ensures HasFate(Step(c, e), id, f)
  {
    HistoriesGrow(c, e);
    if f.Answered? {
      var n :| IsAnswerAt(c, id, f, n);
      assert IsAnswerAt(Step(c, e), id, f, n);
    }
  }

  lemma UnmadeStays(c: Client, e: Event, id: RequestId)
    requires id !in c.issued && !(e.Issue? && e.receiver in c.sockets && id == c.nextId)
    ensures id !in Step(c, e).issued
  {
  }

  /** A new request is at the end of its receiver's list. */
  lemma MadeIsOpen(c: Client, e: Event)
    requires e.Issue? && e.receiver in c.sockets
    ensures HasFate(Step(c, e), c.nextId, Open(e.receiver, e.app, c.now + 5_000_000))
  {
    assert IsOpenAt(Step(c, e), c.nextId, Open(e.receiver, e.app, c.now + 5_000_000), |PendingOf(c, e.receiver)|);
  }

  /** Open requests stay open when their part of the table does. */
  lemma StaysInTable(c: Client, c': Client, id: RequestId, f: Fate)
    requires f.Open? && HasFate(c, id, f) && f.receiver in c'.pending && PendingOf(c, f.receiver) <= c'.pending[f.receiver]
    ensures HasFate(c', id, f)
  {
    var i :| IsOpenAt(c, id, f, i);
    assert IsOpenAt(c', id, f, i);
  }

  /** Erasing another request leaves this one. */
  lemma OthersStay(c: Client, c': Client, r: Id, gone: RequestId, id: RequestId, f: Fate)
    requires f.Open? && HasFate(c, id, f) && id != gone && r in c.pending && HasRequest(c.pending[r], gone)
    requires c'.pending == Erase(c, r, gone).pending
    ensures HasFate(c', id, f)
  {
    var i :| IsOpenAt(c, id, f, i);
    var n := Find(c.pending[r], gone);
    assert IsOpenAt(c', id, f, if f.receiver == r && i > n then i - 1 else i);
  }

  /** The receiver that holds a request, and where. */
  lemma HeldAt(c: Client, r: Id, id: RequestId, f: Fate)
    requires Inv(c) && f.Open? && HasFate(c, id, f) && r in c.pending
    ensures HasRequest(c.pending[r], id) <==> r == f.receiver
    ensures r == f.receiver ==> c.pending[r][Find(c.pending[r], id)] == Request(id, f.app, f.deadline)
  {
    var i :| IsOpenAt(c, id, f, i);
    FindsPosition(c, r, id);
  }

  lemma HolderIs(c: Client, id: RequestId, f: Fate)
    requires Inv(c) && f.Open? && HasFate(c, id, f)
    ensures f.receiver in c.pending && Holders(c, id) != {} && MinKey(Holders(c, id)) == f.receiver
  {
    var i :| IsOpenAt(c, id, f, i);
    HeldAt(c, f.receiver, id, f);
    assert f.receiver in Holders(c, id);
    HeldAt(c, MinKey(Holders(c, id)), id, f);
  }

  lemma NewAnswer(c: Client, answers: seq<Answer>, id: RequestId, f: Fate)
    requires f.Answered? && c.answers == answers + [Answer(Some(id), f.app, f.availability)]
    ensures HasFate(c, id, f)
  {
    assert IsAnswerAt(c, id, f, |answers|);
  }

  lemma AfterCancel(c: Client, x: RequestId, id: RequestId, f: Fate)
    requires Inv(c) && f.Open? && HasFate(c, id, f)
    ensures HasFate(CancelRequest(c, x), id, if x == id then Lost else f)
  {
    NoHolders(c, x);
    if x == id {
      HolderIs(c, id, f);
    } else if Holders(c, x) != {} {
      OthersStay(c, CancelRequest(c, x), MinKey(Holders(c, x)), x, id, f);
    }
  }

  lemma AfterTimeout(c: Client, x: RequestId, id: RequestId, f: Fate)
    requires Inv(c) && f.Open? && HasFate(c, id, f)
    ensures HasFate(HandleTimeout(c, x), id, if x == id then Answered(f.app, TrackerSpec.Unknown) else f)
  {
    NoHolders(c, x);
    if x == id {
      HolderIs(c, id, f);
      HeldAt(c, f.receiver, id, f);
      NewAnswer(HandleTimeout(c, id), c.answers, id, Answered(f.app, TrackerSpec.Unknown));
    } else if Holders(c, x) != {} {
      OthersStay(c, HandleTimeout(c, x), MinKey(Holders(c, x)), x, id, f);
    }
  }

  /** The request of the reply itself. */
  lemma AfterOwnResponse(c: Client, reply: Reply, id: RequestId, f: Fate)
    requires Inv(c) && f.Open? && HasFate(c, id, f)
    ensures HasFate(HandleResponse(c, f.receiver, id, reply), id, Next(f, Message(0, id, reply), id, false, 0, true))
  {
    HolderIs(c, id, f);
    HeldAt(c, f.receiver, id, f);
    if f.app in reply {
      NewAnswer(HandleResponse(c, f.receiver, id, reply), c.answers, id, Next(f, Message(0, id, reply), id, false, 0, true));
    }
  }

  lemma AfterResponse(c: Client, r: Id, x: RequestId, reply: Reply, id: RequestId, f: Fate)
    requires Inv(c) && f.Open? && HasFate(c, id, f)
    ensures HasFate(HandleResponse(c, r, x, reply), id, Next(f, Message(0, x, reply), id, false, 0, r == f.receiver))
  {
    if x == id && r == f.receiver {
      AfterOwnResponse(c, reply, id, f);
    } else if r in c.pending && HasRequest(c.pending[r], x) {
      if x == id {
        HeldAt(c, r, id, f);
      } else {
        OthersStay(c, HandleResponse(c, r, x, reply), r, x, id, f);
      }
    }
  }

  lemma AfterMessage(c: Client, socket: int, x: RequestId, reply: Reply, id: RequestId, f: Fate)
    requires Inv(c) && f.Open? && HasFate(c, id, f)
    ensures HasFate(HandleMessage(c, socket, x, reply), id,
                    Next(f, Message(socket, x, reply), id, false, 0, Receives(c, f.receiver, socket)))
  {
    ReceivesIffMin(c, f.receiver, socket);
    if ReceiversOn(c, socket) != {} {
      AfterResponse(c, MinKey(ReceiversOn(c, socket)), x, reply, id, f);
    }
  }

  lemma AfterRemove(c: Client, r: Id, id: RequestId, f: Fate)
    requires f.Open? && HasFate(c, id, f)
    ensures HasFate(RemoveReceiver(c, r), id, if r == f.receiver then Answered(f.app, TrackerSpec.Unknown) else f)
  {
    var c' := RemoveReceiver(c, r);
    if r == f.receiver {
      var i :| IsOpenAt(c, id, f, i);
      assert IsAnswerAt(c', id, Answered(f.app, TrackerSpec.Unknown), |c.answers| + i);
    } else {
      StaysInTable(c, c', id, f);
    }
  }

  lemma {:induction false} InTheCollection(pending: map<Id, seq<Request>>, receivers: seq<Id>, r: Id, i: int) returns (k: nat)
    requires r in receivers && r in pending && 0 <= i < |pending[r]|
    ensures k < |AllPending(pending, receivers)| && AllPending(pending, receivers)[k] == pending[r][i]
  {
    var front := receivers[..|receivers| - 1];
    if receivers[|receivers| - 1] == r {
      k := |AllPending(pending, front)| + i;
    } else {
      assert receivers == front + [receivers[|receivers| - 1]];
      k := InTheCollection(pending, front, r, i);
    }
  }

  lemma AfterDestroy(c: Client, id: RequestId, f: Fate)
    requires f.Open? && HasFate(c, id, f)
    ensures HasFate(DestroyClient(c), id, Answered(f.app, TrackerSpec.Unknown))
  {
    var i :| IsOpenAt(c, id, f, i);
    var receivers := Sorted(c.pending.Keys);
    assert f.receiver in receivers;
    var k := InTheCollection(c.pending, receivers, f.receiver, i);
    assert IsAnswerAt(DestroyClient(c), id, Answered(f.app, TrackerSpec.Unknown), |c.answers| + k);
  }

  lemma OpenStep(c: Client, e: Event, id: RequestId, f: Fate)
    requires Inv(c) && f.Open? && HasFate(c, id, f)
    ensures HasFate(Step(c, e), id, Next(f, e, id, false, c.now, e.Message? && Receives(c, f.receiver, e.socket)))
  {
    match e
    case Remove(r) => AfterRemove(c, r, id, f);
    case Cancel(x) => AfterCancel(c, x, id, f);
    case Message(socket, x, reply) => AfterMessage(c, socket, x, reply, id, f);
    case Timeout(x) => AfterTimeout(c, x, id, f);
    case Destroy => AfterDestroy(c, id, f);
    case _ =>
      var i :| IsOpenAt(c, id, f, i);
      StaysInTable(c, Step(c, e), id, f);
  }

  /** What an event makes of a request, by the state before it. */
  ghost function NextIn(c: Client, before: Fate, e: Event, id: RequestId): Fate {
    Next(before, e, id, e.Issue? && e.receiver in c.sockets && id == c.nextId, c.now,
         before.Open? && e.Message? && Receives(c, before.receiver, e.socket))
  }

  lemma FateStep(c: Client, e: Event, id: RequestId, f: Fate)
    requires Inv(c) && HasFate(c, id, f)
    ensures HasFate(Step(c, e), id, NextIn(c, f, e, id))
  {
    if e.Issue? && e.receiver in c.sockets && id == c.nextId {
      MadeIsOpen(c, e);
    } else {
      match f
      case Unmade => UnmadeStays(c, e, id);
      case Open(_, _, _) => OpenStep(c, e, id, f);
      case Answered(_, _) => DecidedStays(c, e, id, f);
      case Lost => DecidedStays(c, e, id, f);
    }
  }

  /** And by the events before it. */
  lemma SameNext(cs: seq<Client>, es: seq<Event>, m: nat, id: RequestId)
    requires IsRun(cs, es) && m < |es|
    ensures FateOf(es[..m + 1], cs[0].nextId, cs[0].now, id) ==
              NextIn(cs[m], FateOf(es[..m], cs[0].nextId, cs[0].now, id), es[m], id)
  {
    var before := FateOf(es[..m], cs[0].nextId, cs[0].now, id);
    ClockFollowsEvents(cs, es, m);
    LastEvent(es, m + 1);
    if es[m].Issue? {
      SocketsFollowEvents(cs, es, m, es[m].receiver);
    }
    if before.Open? && es[m].Message? {
      ReachedFollowsEvents(cs, es, m, before.receiver, es[m].socket);
    }
  }

  /**
   In every run what the client has of a request is what the events make of it, and nothing
   else: it is pending at the receiver asked, about the app asked for, until its deadline; its
   callback has been called with what the reply said, or with no result; or it was dropped.
   */
  lemma {:induction false} FatesFollowEvents(cs: seq<Client>, es: seq<Event>, i: nat, id: RequestId)
    requires IsRun(cs, es) && i < |cs|
    ensures forall f :: HasFate(cs[i], id, f) <==> f == FateOf(es[..i], cs[0].nextId, cs[0].now, id)
  {
    if i > 0 {
      FatesFollowEvents(cs, es, i - 1, id);
      AlwaysInv(cs, es, i - 1);
      FateStep(cs[i - 1], es[i - 1], id, FateOf(es[..i - 1], cs[0].nextId, cs[0].now, id));
      SameNext(cs, es, i - 1, id);
    }
    AlwaysInv(cs, es, i);
    OnlyFate(cs[i], id, FateOf(es[..i], cs[0].nextId, cs[0].now, id));
  }

  // ----- requests that are not made -----

  /** The apps of the answers that belong to no request. */
  ghost function WithoutId(answers: seq<Answer>): seq<Id> {
    if answers == [] then []
    else
      var a := answers[|answers| - 1];
      WithoutId(answers[..|answers| - 1]) + if a.request.None? then [a.app] else []
  }

  lemma {:induction false} WithoutIdAppended(answers: seq<Answer>, batch: seq<Answer>)
    requires forall n :: 0 <= n < |batch| ==> batch[n].request.Some?
    ensures WithoutId(answers + batch) == WithoutId(answers)
    decreases |batch|
  {
    if batch == [] {
      assert answers + batch == answers;
    } else {
      var front := batch[..|batch| - 1];
      assert (answers + batch)[..|answers + batch| - 1] == answers + front;
      WithoutIdAppended(answers, front);
    }
  }

  lemma RefusedOne(c: Client, e: Event)
    requires e.Issue? && e.receiver !in c.sockets
    ensures WithoutId(Step(c, e).answers) == WithoutId(c.answers) + [e.app]
  {
    assert Step(c, e).answers[..|c.answers|] == c.answers;
  }

  /** All other callbacks are those of requests. */
  lemma OthersHaveIds(c: Client, e: Event, n: nat)
    requires !(e.Issue? && e.receiver !in c.sockets) && |c.answers| <= n < |Step(c, e).answers|
    ensures Step(c, e).answers[n].request.Some?
  {
  }

  lemma NoneRefused(c: Client, e: Event)
    requires !(e.Issue? && e.receiver !in c.sockets)
    ensures WithoutId(Step(c, e).answers) == WithoutId(c.answers)
  {
    HistoriesGrow(c, e);
    var answers := Step(c, e).answers;
    var batch := answers[|c.answers|..];
    forall n | 0 <= n < |batch|
      ensures batch[n].request.Some?
    {
      OthersHaveIds(c, e, |c.answers| + n);
    }
    WithoutIdAppended(c.answers, batch);
    assert answers == c.answers + batch;
  }

  /** What has no request has no result. */
  ghost predicate RefusalsUnknown(answers: seq<Answer>) {
    forall n :: 0 <= n < |answers| && answers[n].request.None? ==> answers[n].availability == TrackerSpec.Unknown
  }

  lemma RefusalsStayUnknown(c: Client, e: Event)
    requires RefusalsUnknown(c.answers)
    ensures RefusalsUnknown(Step(c, e).answers)
  {
  }

  lemma RefusedAfter(cs: seq<Client>, es: seq<Event>, m: nat)
    requires IsRun(cs, es) && m < |es| && WithoutId(cs[m].answers) == Refused(es[..m])
    ensures WithoutId(cs[m + 1].answers) == Refused(es[..m + 1])
  {
    LastEvent(es, m + 1);
    if es[m].Issue? {
      SocketsFollowEvents(cs, es, m, es[m].receiver);
    }
    if es[m].Issue? && es[m].receiver !in cs[m].sockets {
      RefusedOne(cs[m], es[m]);
    } else {
      NoneRefused(cs[m], es[m]);
    }
  }

  lemma {:induction false} RefusalsAlwaysUnknown(cs: seq<Client>, es: seq<Event>, i: nat)
    requires IsRun(cs, es) && i < |cs|
    ensures RefusalsUnknown(cs[i].answers)
  {
    if i > 0 {
      RefusalsAlwaysUnknown(cs, es, i - 1);
      RefusalsStayUnknown(cs[i - 1], es[i - 1]);
    }
  }

  /** In every run the callbacks called without a request are those for receivers not known, in order. */
  lemma {:induction false} RefusalsFollowEvents(cs: seq<Client>, es: seq<Event>, i: nat)
    requires IsRun(cs, es) && i < |cs|
    ensures WithoutId(cs[i].answers) == Refused(es[..i]) && RefusalsUnknown(cs[i].answers)
  {
    if i > 0 {
      RefusalsFollowEvents(cs, es, i - 1);
      RefusedAfter(cs, es, i - 1);
    }
    RefusalsAlwaysUnknown(cs, es, i);
  }
}

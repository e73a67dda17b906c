/** Every request is pending, answered or dropped: one of the three, and once. */
module ClientProofs {
  import opened Common
  import opened SortedKeys
  import opened ClientSpec
  import TrackerSpec

  /** The request is the `i`th in the list of receiver `r`. */
  ghost predicate IsAt(c: Client, id: RequestId, r: Id, i: int) {
    r in c.pending && 0 <= i < |c.pending[r]| && c.pending[r][i].id == id
  }

  ghost predicate IsPending(c: Client, id: RequestId) {
    exists r, i :: IsAt(c, id, r, i)
  }

  ghost predicate IsAnsweredAt(answers: seq<Answer>, id: RequestId, i: int) {
    0 <= i < |answers| && answers[i].request == Some(id)
  }

  ghost predicate IsAnswered(c: Client, id: RequestId) {
    exists i :: IsAnsweredAt(c.answers, id, i)
  }

  ghost predicate IsDropped(c: Client, id: RequestId) {
    id in c.dropped
  }

  ghost predicate PositionsUnique(c: Client) {
    forall id, r, i, r', i' :: IsAt(c, id, r, i) && IsAt(c, id, r', i') ==> r == r' && i == i'
  }

  /** No request is pending twice, answered twice, or dropped twice. */
  ghost predicate NothingTwice(c: Client) {
    && PositionsUnique(c)
    && (forall id, i, j :: IsAnsweredAt(c.answers, id, i) && IsAnsweredAt(c.answers, id, j) ==> i == j)
    && (forall i, j :: 0 <= i < j < |c.dropped| ==> c.dropped[i] != c.dropped[j])
  }

  /** Exactly the issued requests are accounted for, each in one way. */
  ghost predicate Accounted(c: Client) {
    forall id ::
      && (id in c.issued <==> IsPending(c, id) || IsAnswered(c, id) || IsDropped(c, id))
      && !(IsPending(c, id) && IsAnswered(c, id))
      && !(IsPending(c, id) && IsDropped(c, id))
      && !(IsAnswered(c, id) && IsDropped(c, id))
  }

  /** Every pending request times out five seconds after it was made. */
  ghost predicate DeadlinesSet(c: Client) {
    forall r, i :: r in c.pending && 0 <= i < |c.pending[r]| ==>
      && c.pending[r][i].id in c.issued
      && c.pending[r][i].deadline == c.issued[c.pending[r][i].id] + REQUEST_TIMEOUT
  }

  ghost predicate Inv(c: Client) {
    && NothingTwice(c)
    && Accounted(c)
    && (forall id :: id in c.issued ==> id < c.nextId)
    && DeadlinesSet(c)
    && c.pending.Keys <= c.sockets.Keys
    && (!c.alive ==> c.pending == map[])
  }

  // ----- moving requests from the table to the answers -----

  ghost predicate Distinct(ids: seq<RequestId>) {
    forall i, j :: 0 <= i < j < |ids| ==> ids[i] != ids[j]
  }

  /** The callbacks of the requests `ids` have run, one after the other. */
  ghost predicate AnswersFor(batch: seq<Answer>, ids: seq<RequestId>) {
    && |batch| == |ids|
    && forall k :: 0 <= k < |ids| ==> batch[k].request == Some(ids[k])
  }

  lemma AnsweredAfter(answers: seq<Answer>, batch: seq<Answer>, ids: seq<RequestId>, id: RequestId)
    requires AnswersFor(batch, ids)
    ensures forall i :: IsAnsweredAt(answers + batch, id, i) <==>
      IsAnsweredAt(answers, id, i) || (|answers| <= i < |answers| + |ids| && ids[i - |answers|] == id)
    ensures (exists i :: IsAnsweredAt(answers + batch, id, i)) <==> (exists i :: IsAnsweredAt(answers, id, i)) || id in ids
  {
    if id in ids {
      var k :| 0 <= k < |ids| && ids[k] == id;
      assert IsAnsweredAt(answers + batch, id, |answers| + k);
    }
    if i :| IsAnsweredAt(answers, id, i) {
      assert IsAnsweredAt(answers + batch, id, i);
    }
  }

  /** Taking pending requests off the table and running their callbacks keeps the account. */
  lemma AnswerKeepsAccount(c: Client, c': Client, batch: seq<Answer>, ids: seq<RequestId>)
    requires NothingTwice(c) && Accounted(c)
    requires Distinct(ids) && AnswersFor(batch, ids)
    requires forall id :: id in ids ==> IsPending(c, id)
    requires c'.answers == c.answers + batch && c'.dropped == c.dropped && c'.issued == c.issued
    requires PositionsUnique(c')
    requires forall id :: IsPending(c', id) <==> IsPending(c, id) && id !in ids
    ensures NothingTwice(c') && Accounted(c')
  {
    forall id
      ensures IsAnswered(c', id) <==> IsAnswered(c, id) || id in ids
    {
      AnsweredAfter(c.answers, batch, ids, id);
    }
    forall id, i, j | IsAnsweredAt(c'.answers, id, i) && IsAnsweredAt(c'.answers, id, j)
      ensures i == j
    {
      AnsweredAfter(c.answers, batch, ids, id);
      if IsAnsweredAt(c.answers, id, i) || IsAnsweredAt(c.answers, id, j) {
        assert IsAnswered(c, id) && id !in ids;
      }
    }
  }

  /** Taking one pending request off the table without running its callback. */
  lemma DropKeepsAccount(c: Client, c': Client, id: RequestId)
    requires NothingTwice(c) && Accounted(c) && IsPending(c, id)
    requires c'.answers == c.answers && c'.dropped == c.dropped + [id] && c'.issued == c.issued
    requires PositionsUnique(c')
    requires forall x :: IsPending(c', x) <==> IsPending(c, x) && x != id
    ensures NothingTwice(c') && Accounted(c')
  {
    assert forall x :: IsAnswered(c', x) <==> IsAnswered(c, x);
    assert forall x :: IsDropped(c', x) <==> IsDropped(c, x) || x == id;
    assert id !in c.dropped;
  }

  lemma FindsPosition(c: Client, r: Id, id: RequestId)
    requires r in c.pending
    ensures HasRequest(c.pending[r], id) ==> IsAt(c, id, r, Find(c.pending[r], id))
    ensures !HasRequest(c.pending[r], id) ==> forall i :: !IsAt(c, id, r, i)
  {
  }

  /** Erasing takes exactly one request off the table. */
  lemma EraseTakesOne(c: Client, r: Id, id: RequestId)
    requires PositionsUnique(c) && r in c.pending && HasRequest(c.pending[r], id)
    ensures IsPending(c, id)
    ensures PositionsUnique(Erase(c, r, id))
    ensures forall x :: IsPending(Erase(c, r, id), x) <==> IsPending(c, x) && x != id
  {
    var c' := Erase(c, r, id);
    var n := Find(c.pending[r], id);
    assert IsAt(c, id, r, n);
    // Where the entry at (s, i) was before.
    forall x, s, i
      ensures IsAt(c', x, s, i) <==> IsAt(c, x, s, if s == r && i >= n then i + 1 else i)
    {
    }
    forall x
      ensures IsPending(c', x) <==> IsPending(c, x) && x != id
    {
      if s, i :| IsAt(c', x, s, i) {
        assert IsAt(c, x, s, if s == r && i >= n then i + 1 else i);
      }
      if s, i :| IsAt(c, x, s, i) && x != id {
        assert IsAt(c', x, s, if s == r && i > n then i - 1 else i);
      }
    }
  }

  lemma NoHolders(c: Client, id: RequestId)
    ensures Holders(c, id) == {} <==> !IsPending(c, id)
    ensures forall r :: r in Holders(c, id) <==> r in c.pending && HasRequest(c.pending[r], id)
  {
    if r, i :| IsAt(c, id, r, i) {
      FindsPosition(c, r, id);
      assert r in Holders(c, id);
    }
    assert (forall r :: r !in Holders(c, id)) ==> Holders(c, id) == {};
    if r :| r in Holders(c, id) {
      FindsPosition(c, r, id);
    }
  }

  /** The ids of a list of requests. */
  ghost function Ids(reqs: seq<Request>): (ids: seq<RequestId>)
    ensures |ids| == |reqs|
  {
    seq(|reqs|, i requires 0 <= i < |reqs| => reqs[i].id)
  }

  lemma GivesUpAll(reqs: seq<Request>)
    ensures AnswersFor(GiveUp(reqs), Ids(reqs))
  {
  }

  lemma RemoveKeepsAccount(c: Client, r: Id)
    requires NothingTwice(c) && Accounted(c)
    ensures NothingTwice(RemoveReceiver(c, r)) && Accounted(RemoveReceiver(c, r))
  {
    var c' := RemoveReceiver(c, r);
    var reqs := PendingOf(c, r);
    var ids := Ids(reqs);
    GivesUpAll(reqs);
    assert forall i :: 0 <= i < |ids| ==> IsAt(c, ids[i], r, i);
    forall x, i | IsAt(c, x, r, i)
      ensures x in ids
    {
      assert ids[i] == x;
    }
    assert forall x, s, i :: IsAt(c', x, s, i) <==> IsAt(c, x, s, i) && s != r;
    forall x
      ensures IsPending(c', x) <==> IsPending(c, x) && x !in ids
      ensures x in ids ==> IsPending(c, x)
    {
      if x in ids {
        var i :| 0 <= i < |ids| && ids[i] == x;
        assert IsAt(c, x, r, i);
      } else if s, i :| IsAt(c, x, s, i) {
        assert IsAt(c', x, s, i);
      }
    }
    AnswerKeepsAccount(c, c', GiveUp(reqs), ids);
  }

  /** Request `id` is pending at one of the first receivers. */
  ghost predicate IsPendingAmong(c: Client, receivers: seq<Id>, id: RequestId) {
    exists r, i :: r in receivers && IsAt(c, id, r, i)
  }

  lemma {:induction false} CollectsAllOnce(c: Client, receivers: seq<Id>)
    requires PositionsUnique(c) && Ascending(receivers)
    ensures Distinct(Ids(AllPending(c.pending, receivers)))
    ensures forall id :: id in Ids(AllPending(c.pending, receivers)) <==> IsPendingAmong(c, receivers, id)
  {
    if receivers != [] {
      var front, r := receivers[..|receivers| - 1], receivers[|receivers| - 1];
      CollectsAllOnce(c, front);
      var before, own := Ids(AllPending(c.pending, front)), Ids(PendingOf(c, r));
      assert Ids(AllPending(c.pending, receivers)) == before + own;
      assert forall i :: 0 <= i < |own| ==> IsAt(c, own[i], r, i);
      assert receivers == front + [r] && r !in front;
      forall id
        ensures id in before + own <==> IsPendingAmong(c, receivers, id)
      {
        if id in own {
          var i :| 0 <= i < |own| && own[i] == id;
          assert r in receivers && IsAt(c, id, r, i);
        } else if id in before {
          var s, i :| s in front && IsAt(c, id, s, i);
          assert s in receivers && IsAt(c, id, s, i);
        }
        if IsPendingAmong(c, receivers, id) {
          var s, i :| s in receivers && IsAt(c, id, s, i);
          if s == r {
            assert own[i] == id;
          } else {
            assert s in front && IsAt(c, id, s, i);
          }
        }
      }
      forall i, j | 0 <= i < |before| && 0 <= j < |own|
        ensures before[i] != own[j]
      {
        var x := before[i];
        assert x in before;
        var s, k :| s in front && IsAt(c, x, s, k);
        assert IsAt(c, own[j], r, j);
      }
    }
  }

  lemma DestroyKeepsAccount(c: Client)
    requires NothingTwice(c) && Accounted(c)
    ensures NothingTwice(DestroyClient(c)) && Accounted(DestroyClient(c))
  {
    var receivers := Sorted(c.pending.Keys);
    var reqs := AllPending(c.pending, receivers);
    CollectsAllOnce(c, receivers);
    GivesUpAll(reqs);
    forall id
      ensures id in Ids(reqs) <==> IsPending(c, id)
    {
      if r, i :| IsAt(c, id, r, i) {
        assert r in receivers && IsAt(c, id, r, i);
      }
    }
    AnswerKeepsAccount(c, DestroyClient(c), GiveUp(reqs), Ids(reqs));
  }

  lemma IssueKeepsAccount(c: Client, receiver: Id, app: Id)
    requires Inv(c)
    ensures NothingTwice(RequestAvailability(c, receiver, app)) && Accounted(RequestAvailability(c, receiver, app))
  {
    var c' := RequestAvailability(c, receiver, app);
    if receiver !in c.sockets {
      assert forall id, r, i :: IsAt(c', id, r, i) <==> IsAt(c, id, r, i);
      assert forall id, i :: IsAnsweredAt(c'.answers, id, i) <==> IsAnsweredAt(c.answers, id, i);
      assert forall id :: IsAnswered(c', id) <==> IsAnswered(c, id);
      assert forall id :: IsPending(c', id) <==> IsPending(c, id);
    } else {
      var n := |PendingOf(c, receiver)|;
      assert c.nextId !in c.issued;
      assert forall id, r, i :: IsAt(c', id, r, i) <==> IsAt(c, id, r, i) || (id == c.nextId && r == receiver && i == n);
      forall id
        ensures IsPending(c', id) <==> IsPending(c, id) || id == c.nextId
      {
        PendingAfterRequest(c, receiver, app, id);
      }
      assert forall id :: IsAnswered(c', id) <==> IsAnswered(c, id);
    }
  }

  lemma PendingAfterRequest(c: Client, receiver: Id, app: Id, id: RequestId)
    requires receiver in c.sockets
    ensures IsPending(RequestAvailability(c, receiver, app), id) <==> IsPending(c, id) || id == c.nextId
  {
    var c' := RequestAvailability(c, receiver, app);
    var n := |PendingOf(c, receiver)|;
    assert forall r, i :: IsAt(c', id, r, i) <==> IsAt(c, id, r, i) || (id == c.nextId && r == receiver && i == n);
    assert IsAt(c', c.nextId, receiver, n);
    if r, i :| IsAt(c, id, r, i) {
      assert IsAt(c', id, r, i);
    }
  }

  /** The reply reaches the pending request, but says nothing about its app. */
  ghost predicate IsMutedBy(c: Client, id: RequestId, e: Event) {
    && e.Message? && e.id == id && ReceiversOn(c, e.socket) != {}
    && var r := MinKey(ReceiversOn(c, e.socket));
       && HasRequest(PendingOf(c, r), id)
       && c.pending[r][Find(c.pending[r], id)].app !in e.reply
  }

  /** The event gives the pending request up without running its callback. */
  ghost predicate Drops(c: Client, id: RequestId, e: Event) {
    (e == Cancel(id) && IsPending(c, id)) || IsMutedBy(c, id, e)
  }

  lemma SettleOne(c: Client, r: Id, id: RequestId, answer: Answer)
    requires NothingTwice(c) && Accounted(c) && r in c.pending && HasRequest(c.pending[r], id)
    requires answer.request == Some(id)
    ensures var c' := Erase(c, r, id).(answers := c.answers + [answer]); NothingTwice(c') && Accounted(c')
    ensures var c' := Erase(c, r, id).(dropped := c.dropped + [id]); NothingTwice(c') && Accounted(c')
  {
    EraseTakesOne(c, r, id);
    var erased := Erase(c, r, id);
    var c1 := erased.(answers := c.answers + [answer]);
    assert forall x, s, i :: IsAt(c1, x, s, i) <==> IsAt(erased, x, s, i);
    assert forall x :: IsPending(c1, x) <==> IsPending(erased, x);
    AnswerKeepsAccount(c, c1, [answer], [id]);
    var c2 := erased.(dropped := c.dropped + [id]);
    assert forall x, s, i :: IsAt(c2, x, s, i) <==> IsAt(erased, x, s, i);
    assert forall x :: IsPending(c2, x) <==> IsPending(erased, x);
    DropKeepsAccount(c, c2, id);
  }

  lemma SameTable(c: Client, c': Client)
    requires c'.pending == c.pending && c'.answers == c.answers && c'.dropped == c.dropped && c'.issued == c.issued
    requires NothingTwice(c) && Accounted(c)
    ensures NothingTwice(c') && Accounted(c')
  {
    assert forall x, s, i :: IsAt(c', x, s, i) <==> IsAt(c, x, s, i);
    assert forall x :: IsPending(c', x) <==> IsPending(c, x);
    assert forall x :: IsAnswered(c', x) <==> IsAnswered(c, x);
  }

  lemma StepKeepsAccount(c: Client, e: Event)
    requires Inv(c)
    ensures NothingTwice(Step(c, e)) && Accounted(Step(c, e))
  {
    match e
    case Tick(_) => SameTable(c, Step(c, e));
    case IssueElsewhere => SameTable(c, Step(c, e));
    case AddOrUpdate(_, _) => SameTable(c, Step(c, e));
    case Issue(receiver, app) => IssueKeepsAccount(c, receiver, app);
    case Remove(receiver) => RemoveKeepsAccount(c, receiver);
    case Destroy => DestroyKeepsAccount(c);
    case Cancel(id) =>
      NoHolders(c, id);
      if Holders(c, id) != {} {
        SettleOne(c, MinKey(Holders(c, id)), id, Answer(Some(id), 0, TrackerSpec.Unknown));
      }
    case Timeout(id) =>
      NoHolders(c, id);
      if Holders(c, id) != {} {
        var r := MinKey(Holders(c, id));
        SettleOne(c, r, id, Answer(Some(id), c.pending[r][Find(c.pending[r], id)].app, TrackerSpec.Unknown));
      }
    case Message(socket, id, reply) =>
      if ReceiversOn(c, socket) != {} {
        var r := MinKey(ReceiversOn(c, socket));
        if HasRequest(PendingOf(c, r), id) {
          var app := c.pending[r][Find(c.pending[r], id)].app;
          SettleOne(c, r, id, Answer(Some(id), app, if app in reply then Meaning(reply[app]) else TrackerSpec.Unknown));
        }
      }
  }

  lemma StepKeepsDeadlines(c: Client, e: Event)
    requires DeadlinesSet(c) && (forall id :: id in c.issued ==> id < c.nextId)
    ensures DeadlinesSet(Step(c, e))
  {
    match e
    case Cancel(id) =>
      if Holders(c, id) != {} {
        EraseKeepsDeadlines(c, MinKey(Holders(c, id)), id);
      }
    case Timeout(id) =>
      if Holders(c, id) != {} {
        EraseKeepsDeadlines(c, MinKey(Holders(c, id)), id);
      }
    case Message(socket, id, _) =>
      if ReceiversOn(c, socket) != {} && HasRequest(PendingOf(c, MinKey(ReceiversOn(c, socket))), id) {
        EraseKeepsDeadlines(c, MinKey(ReceiversOn(c, socket)), id);
      }
    case _ =>
  }

  lemma EraseKeepsDeadlines(c: Client, r: Id, id: RequestId)
    requires DeadlinesSet(c) && r in c.pending && HasRequest(c.pending[r], id)
    ensures DeadlinesSet(Erase(c, r, id))
  {
    var n := Find(c.pending[r], id);
    var rest := c.pending[r][..n] + c.pending[r][n + 1..];
    assert forall i :: 0 <= i < |rest| ==> rest[i] == c.pending[r][if i < n then i else i + 1];
  }

  lemma StepKeepsInv(c: Client, e: Event)
    requires Inv(c) && (e.Issue? ==> c.alive)
    ensures Inv(Step(c, e))
  {
    StepKeepsAccount(c, e);
    StepKeepsDeadlines(c, e);
    assert forall id :: id in Step(c, e).issued ==> id < Step(c, e).nextId;
  }

  lemma InitialInv(c: Client)
    requires c == Initial(c.now, c.nextId)
    ensures Inv(c)
  {
    assert forall id :: !IsPending(c, id) && !IsAnswered(c, id);
  }

  lemma {:induction false} AlwaysInv(cs: seq<Client>, es: seq<Event>, i: nat)
    requires IsRun(cs, es) && i < |cs|
    ensures Inv(cs[i])
  {
    if i > 0 {
      AlwaysInv(cs, es, i - 1);
      StepKeepsInv(cs[i - 1], es[i - 1]);
    } else {
      InitialInv(cs[0]);
    }
  }

  lemma HistoriesGrow(c: Client, e: Event)
    ensures c.answers <= Step(c, e).answers && c.dropped <= Step(c, e).dropped
  {
  }

  /** A request that is pending after an event was pending before, or was just made. */
  lemma PendingWasPending(c: Client, e: Event, id: RequestId)
    requires Inv(c) && Enabled(c, e) && id in c.issued && IsPending(Step(c, e), id)
    ensures IsPending(c, id)
  {
    StepKeepsInv(c, e);
    HistoriesGrow(c, e);
    var c' := Step(c, e);
    if n :| IsAnsweredAt(c.answers, id, n) {
      assert IsAnsweredAt(c'.answers, id, n);
    }
  }

  /**
   Conservation, in every reachable state: an id is issued exactly if its request is
   pending, answered or dropped; it is only one of these, and that once.  Requests are
   pending at known receivers only.
   */
  lemma RequestsAreConserved(cs: seq<Client>, es: seq<Event>, i: nat)
    requires IsRun(cs, es) && i < |cs|
    ensures Accounted(cs[i]) && NothingTwice(cs[i])
    ensures cs[i].pending.Keys <= cs[i].sockets.Keys
  {
    AlwaysInv(cs, es, i);
  }

  lemma DroppedByStep(c: Client, e: Event, id: RequestId)
    requires Inv(c) && Enabled(c, e)
    ensures IsDropped(Step(c, e), id) <==> IsDropped(c, id) || Drops(c, id, e)
  {
    if e.Cancel? {
      NoHolders(c, e.id);
    }
  }

  lemma DroppedAt(cs: seq<Client>, es: seq<Event>, i: nat, id: RequestId)
    requires IsRun(cs, es) && i < |es|
    ensures IsDropped(cs[i + 1], id) <==> IsDropped(cs[i], id) || Drops(cs[i], id, es[i])
  {
    AlwaysInv(cs, es, i);
    DroppedByStep(cs[i], es[i], id);
  }

  /** A timeout runs the callback of its request, with no result. */
  lemma TimeoutAnswers(c: Client, id: RequestId)
    requires Inv(c) && IsPending(c, id)
    ensures var c' := Step(c, Timeout(id));
            && !IsPending(c', id) && IsAnswered(c', id)
            && c'.answers == c.answers + [c'.answers[|c.answers|]]
            && c'.answers[|c.answers|].request == Some(id)
            && c'.answers[|c.answers|].availability == TrackerSpec.Unknown
  {
    NoHolders(c, id);
    var r := MinKey(Holders(c, id));
    EraseTakesOne(c, r, id);
    var c' := Step(c, Timeout(id));
    assert forall x, s, i :: IsAt(c', x, s, i) <==> IsAt(Erase(c, r, id), x, s, i);
    assert IsAnsweredAt(c'.answers, id, |c.answers|);
  }

  /** A request is dropped exactly when it is canceled, or its reply has no entry for its app. */
  lemma {:induction false} DroppedIffSomeEventDrops(cs: seq<Client>, es: seq<Event>, i: nat, id: RequestId)
    requires IsRun(cs, es) && i < |cs|
    ensures IsDropped(cs[i], id) <==> exists m :: 0 <= m < i && Drops(cs[m], id, es[m])
  {
    if i > 0 {
      DroppedIffSomeEventDrops(cs, es, i - 1, id);
      DroppedAt(cs, es, i - 1, id);
    }
  }

  /** The callback has run, and not twice. */
  ghost predicate IsAnsweredOnce(c: Client, id: RequestId) {
    && IsAnswered(c, id)
    && forall n, k :: IsAnsweredAt(c.answers, id, n) && IsAnsweredAt(c.answers, id, k) ==> n == k
  }

  /**
   The header promises that a callback is called exactly once.  By the time the client is
   destroyed that is so for exactly those requests that no event has dropped.
   */
  lemma AnsweredOnceUnlessDropped(cs: seq<Client>, es: seq<Event>, i: nat, id: RequestId)
    requires IsRun(cs, es) && i < |es| && es[i] == Destroy && id in cs[i].issued
    ensures IsAnsweredOnce(cs[i + 1], id) <==> !exists m :: 0 <= m < i && Drops(cs[m], id, es[m])
  {
    AlwaysInv(cs, es, i + 1);
    DroppedIffSomeEventDrops(cs, es, i, id);
    assert !IsPending(cs[i + 1], id);
    assert IsAnswered(cs[i + 1], id) <==> !IsDropped(cs[i + 1], id);
  }

  /** A run after which a callback will never be called: the reply did not mention the app. */
  lemma CallbackCanBeLost()
    ensures exists cs: seq<Client>, es: seq<Event> ::
      IsRun(cs, es) && 7 in cs[|es|].issued && !IsPending(cs[|es|], 7) && !IsAnswered(cs[|es|], 7)
  {
    var request := Request(7, 5, REQUEST_TIMEOUT);
    var c0 := Initial(0, 7);
    var c1 := c0.(sockets := map[1 := 10]);
    var c2 := c1.(nextId := 8, issued := map[7 := 0], pending := map[1 := [request]]);
    var c3 := c2.(pending := map[1 := []], dropped := [7]);
    assert Step(c0, AddOrUpdate(1, 10)) == c1;
    assert PendingOf(c1, 1) + [request] == [request];
    assert Step(c1, Issue(1, 5)) == c2;
    ReplyWithoutApp(c2, 1, 10, request);
    var cs, es := [c0, c1, c2, c3], [AddOrUpdate(1, 10), Issue(1, 5), Message(10, 7, map[])];
    assert IsRun(cs, es);
    assert !IsPending(c3, 7) && !IsAnswered(c3, 7);
    assert cs[|es|] == c3;
  }

  /** A reply that does not mention the app drops the only request without a callback. */
  lemma ReplyWithoutApp(c: Client, r: Id, socket: int, request: Request)
    requires c.alive && c.sockets == map[r := socket] && c.pending == map[r := [request]]
    ensures Step(c, Message(socket, request.id, map[])) == c.(pending := map[r := []], dropped := c.dropped + [request.id])
  {
    assert r in ReceiversOn(c, socket);
    assert [request][..0] + [request][1..] == [];
  }

  /** No receiver with a smaller id uses the same socket. */
  ghost predicate IsFirstOn(c: Client, r: Id, socket: int) {
    forall s :: s in c.sockets && c.sockets[s] == socket ==> r <= s
  }

  lemma FirstIsMin(c: Client, r: Id, socket: int)
    requires r in c.sockets && c.sockets[r] == socket
    ensures ReceiversOn(c, socket) != {}
    ensures IsFirstOn(c, r, socket) <==> MinKey(ReceiversOn(c, socket)) == r
  {
    var on := ReceiversOn(c, socket);
    assert r in on;
    var m := MinKey(on);
    assert forall s :: s in c.sockets && c.sockets[s] == socket <==> s in on;
  }

  /** The receiver is reached over the socket, and no receiver with a smaller id is. */
  ghost predicate Receives(c: Client, r: Id, socket: int) {
    r in c.sockets && c.sockets[r] == socket && IsFirstOn(c, r, socket)
  }

  lemma ReceivesIffMin(c: Client, r: Id, socket: int)
    ensures Receives(c, r, socket) <==> ReceiversOn(c, socket) != {} && MinKey(ReceiversOn(c, socket)) == r
  {
    var on := ReceiversOn(c, socket);
    if r in c.sockets && c.sockets[r] == socket {
      FirstIsMin(c, r, socket);
    } else if on != {} {
      assert r !in on;
    }
  }

  /** What a word of a reply says. */
  ghost predicate Says(w: Word, availability: TrackerSpec.AppAvailability) {
    && (availability.Available? <==> w.AppAvailable?)
    && (availability.Unavailable? <==> w.AppUnavailable?)
  }

  /**
   What a reply, on whatever socket, does to the pending request it names: it takes effect
   exactly if the request's receiver uses that socket now, and is the first that does.  Then the
   callback of the request, and no other, is called with what the reply says about its app.
   */
  lemma ReplyReachesFirstReceiver(c: Client, r: Id, i: int, socket: int, id: RequestId, reply: Reply)
    requires Inv(c) && IsAt(c, id, r, i)
    ensures var c', app := HandleMessage(c, socket, id, reply), c.pending[r][i].app;
            && (IsPending(c', id) <==> !Receives(c, r, socket))
            && (IsAnswered(c', id) <==> Receives(c, r, socket) && app in reply)
            && (IsDropped(c', id) <==> Receives(c, r, socket) && app !in reply)
            && (!IsAnswered(c', id) ==> c'.answers == c.answers)
            && (Receives(c, r, socket) && app in reply ==>
                  exists availability ::
                    Says(reply[app], availability) && c'.answers == c.answers + [Answer(Some(id), app, availability)])
  {
    ReceivesIffMin(c, r, socket);
    var c' := HandleMessage(c, socket, id, reply);
    if Receives(c, r, socket) {
      FindsPosition(c, r, id);
      assert Find(c.pending[r], id) == i;
      EraseTakesOne(c, r, id);
      assert forall x, k, n :: IsAt(c', x, k, n) <==> IsAt(Erase(c, r, id), x, k, n);
      assert IsPending(c', id) <==> IsPending(Erase(c, r, id), id);
      AnsweredAfterMessage(c, c', id);
      if c.pending[r][i].app in reply {
        assert Says(reply[c.pending[r][i].app], c'.answers[|c.answers|].availability);
      }
    } else {
      if ReceiversOn(c, socket) != {} && MinKey(ReceiversOn(c, socket)) in c.pending {
        FindsPosition(c, MinKey(ReceiversOn(c, socket)), id);
      }
      assert c' == c;
    }
  }

  /**
   A run in which a reply misses its request: two receivers share a socket, the request is
   pending at the second, and the reply names the request and its app to no effect.
   */
  lemma ReplyCanMissItsRequest()
    ensures exists cs: seq<Client>, es: seq<Event> ::
      && IsRun(cs, es) && |es| == 4 && es[3] == Message(10, 7, map[5 := AppAvailable])
      && IsAt(cs[3], 7, 2, 0) && cs[3].pending[2][0].app == 5 && 2 in ReceiversOn(cs[3], 10)
      && IsPending(cs[4], 7) && !IsAnswered(cs[4], 7)
  {
    var request := Request(7, 5, REQUEST_TIMEOUT);
    var c0 := Initial(0, 7);
    var c1 := c0.(sockets := map[1 := 10]);
    var c2 := c0.(sockets := map[1 := 10, 2 := 10]);
    var c3 := c2.(nextId := 8, issued := map[7 := 0], pending := map[2 := [request]]);
    assert Step(c0, AddOrUpdate(1, 10)) == c1 && Step(c1, AddOrUpdate(2, 10)) == c2;
    assert PendingOf(c2, 2) + [request] == [request];
    assert Step(c2, Issue(2, 5)) == c3;
    var reply: Reply := map[5 := AppAvailable];
    FirstIsMin(c3, 1, 10);
    assert Step(c3, Message(10, 7, reply)) == c3;
    var cs, es := [c0, c1, c2, c3, c3], [AddOrUpdate(1, 10), AddOrUpdate(2, 10), Issue(2, 5), Message(10, 7, reply)];
    assert IsRun(cs, es);
    assert IsAt(c3, 7, 2, 0) && !IsAnswered(c3, 7);
    assert cs[3] == c3 && cs[4] == c3;
  }

  lemma AnsweredAfterMessage(c: Client, c': Client, id: RequestId)
    requires !IsAnswered(c, id)
    requires c'.answers == c.answers || exists a :: c'.answers == c.answers + [a]
    ensures IsAnswered(c', id) <==>
      |c'.answers| > |c.answers| && c'.answers[|c.answers|].request == Some(id)
  {
    if c'.answers != c.answers && c'.answers[|c.answers|].request == Some(id) {
      assert IsAnsweredAt(c'.answers, id, |c.answers|);
    }
    if n :| IsAnsweredAt(c'.answers, id, n) {
      assert n < |c.answers| ==> IsAnsweredAt(c.answers, id, n);
    }
  }
}

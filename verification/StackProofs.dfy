/** Whatever an observer may still want to know is known, asked for, or was dropped by the client. */
module StackProofs {
  import opened Common
  import opened SortedKeys
  import opened StackSpec
  import C = ClientSpec
  import ClientProofs
  import D = DiscoverySpec
  import DiscoveryProofs
  import TrackerSpec
  import TrackerProofs
  import TimeoutProofs

  /** The request has not been answered. */
  ghost predicate IsOpen(c: C.Client, id: C.RequestId) {
    ClientProofs.IsPending(c, id) || ClientProofs.IsDropped(c, id)
  }

  /** Some request about the pair has not been answered. */
  ghost predicate IsBacked(s: Stack, p: Pair) {
    exists id :: id in s.owners && s.owners[id] == p && IsOpen(s.client, id)
  }

  /** The client's table agrees with who asked for what. */
  ghost predicate OwnersMatch(s: Stack) {
    && s.owners.Keys <= s.client.issued.Keys
    && forall id, r, i :: ClientProofs.IsAt(s.client, id, r, i) ==>
         id in s.owners && s.owners[id] == (r, s.client.pending[r][i].app)
  }

  ghost predicate AskedPresent(s: D.Service) {
    forall p :: p in s.asked ==> p.0 in s.receivers
  }

  /** Every outstanding pair but those still to be asked about has its request. */
  ghost predicate AllBacked(s: Stack, rest: set<Pair>) {
    forall p :: p in s.service.asked ==> p in rest || IsBacked(s, p)
  }

  ghost predicate InvBut(s: Stack, rest: set<Pair>) {
    && DiscoveryProofs.Inv(s.service) && ClientProofs.Inv(s.client)
    && OwnersMatch(s) && AskedPresent(s.service) && AllBacked(s, rest)
  }

  ghost predicate Inv(s: Stack) {
    InvBut(s, {})
  }

  // ----- answers -----

  lemma AnswerDischarges(s: D.Service, r: Id, app: Id, availability: TrackerSpec.AppAvailability, now: Time)
    ensures var s' := D.HandleAnswer(s, r, app, availability, now);
            s'.receivers == s.receivers && s'.asked == if r in s.receivers then s.asked - {(r, app)} else s.asked
  {
  }

  lemma {:induction false} DeliverKeepsInv(s: D.Service, owners: map<C.RequestId, Pair>, answers: seq<C.Answer>, now: Time)
    requires DiscoveryProofs.Inv(s)
    ensures var s' := Deliver(s, owners, answers, now);
            DiscoveryProofs.Inv(s') && s'.receivers == s.receivers && s'.asked <= s.asked
    decreases |answers|
  {
    if answers != [] {
      var a := answers[0];
      if a.request.Some? && a.request.value in owners {
        DiscoveryProofs.AnswerKeepsInv(s, owners[a.request.value].0, a.app, a.availability, now);
        AnswerDischarges(s, owners[a.request.value].0, a.app, a.availability, now);
      }
      DeliverKeepsInv(DeliverOne(s, owners, a, now), owners, answers[1..], now);
    }
  }

  /** A pair about whose request a callback has run is not outstanding any more. */
  lemma {:induction false} DeliverDischarges(s: D.Service, owners: map<C.RequestId, Pair>, answers: seq<C.Answer>, now: Time, n: nat)
    requires DiscoveryProofs.Inv(s) && n < |answers| && answers[n].request.Some? && answers[n].request.value in owners
    requires var p := owners[answers[n].request.value]; p.0 in s.receivers && p.1 == answers[n].app
    ensures owners[answers[n].request.value] !in Deliver(s, owners, answers, now).asked
    decreases |answers|
  {
    var a := answers[0];
    var s1 := DeliverOne(s, owners, a, now);
    if a.request.Some? && a.request.value in owners {
      DiscoveryProofs.AnswerKeepsInv(s, owners[a.request.value].0, a.app, a.availability, now);
      AnswerDischarges(s, owners[a.request.value].0, a.app, a.availability, now);
    }
    if n == 0 {
      DeliverKeepsInv(s1, owners, answers[1..], now);
    } else {
      DeliverDischarges(s1, owners, answers[1..], now, n - 1);
    }
  }

  // ----- the client's table -----

  /** Erasing shifts the requests behind the one erased, and changes none. */
  lemma EraseShifts(c: C.Client, x: Id, gone: C.RequestId, id: C.RequestId, r: Id, i: int) returns (j: int)
    requires x in c.pending && C.HasRequest(c.pending[x], gone) && ClientProofs.IsAt(C.Erase(c, x, gone), id, r, i)
    ensures ClientProofs.IsAt(c, id, r, j) && c.pending[r][j] == C.Erase(c, x, gone).pending[r][i]
  {
    j := if r == x && i >= C.Find(c.pending[x], gone) then i + 1 else i;
  }

  /** No event but a request enters or changes a request. */
  lemma EntriesKept(c: C.Client, e: C.Event, id: C.RequestId, r: Id, i: int) returns (j: int)
    requires !e.Issue? && ClientProofs.IsAt(C.Step(c, e), id, r, i)
    ensures ClientProofs.IsAt(c, id, r, j) && c.pending[r][j] == C.Step(c, e).pending[r][i]
  {
    var c' := C.Step(c, e);
    j := i;
    if c'.pending != c.pending {
      match e
      case Cancel(gone) => j := EraseShifts(c, MinKey(C.Holders(c, gone)), gone, id, r, i);
      case Timeout(gone) => j := EraseShifts(c, MinKey(C.Holders(c, gone)), gone, id, r, i);
      case Message(socket, gone, _) => j := EraseShifts(c, MinKey(C.ReceiversOn(c, socket)), gone, id, r, i);
      case _ =>
    }
  }

  lemma {:induction false} FromTheTable(pending: map<Id, seq<C.Request>>, receivers: seq<Id>, k: nat) returns (r: Id, i: int)
    requires k < |C.AllPending(pending, receivers)|
    ensures r in pending && 0 <= i < |pending[r]| && C.AllPending(pending, receivers)[k] == pending[r][i]
  {
    var front := receivers[..|receivers| - 1];
    var n := |C.AllPending(pending, front)|;
    if k < n {
      r, i := FromTheTable(pending, front, k);
    } else {
      r, i := receivers[|receivers| - 1], k - n;
    }
  }

  /** A callback that an event runs is that of a request pending before, about its app. */
  lemma CallbackOfPending(c: C.Client, e: C.Event, n: nat) returns (r: Id, i: int)
    requires !e.Issue? && |c.answers| <= n < |C.Step(c, e).answers|
    ensures var a := C.Step(c, e).answers[n];
            && a.request.Some? && ClientProofs.IsAt(c, a.request.value, r, i) && c.pending[r][i].app == a.app
  {
    var k := n - |c.answers|;
    match e
    case Remove(receiver) => r, i := receiver, k;
    case Destroy => r, i := FromTheTable(c.pending, Sorted(c.pending.Keys), k);
    case Timeout(id) =>
      r := MinKey(C.Holders(c, id));
      i := C.Find(c.pending[r], id);
    case Message(socket, id, _) =>
      r := MinKey(C.ReceiversOn(c, socket));
      i := C.Find(c.pending[r], id);
  }

  /** After an event a request is still open, or its callback is among those that the event ran. */
  lemma OpenOrAnswered(c: C.Client, e: C.Event, id: C.RequestId) returns (n: nat)
    requires ClientProofs.Inv(c) && C.Enabled(c, e) && !e.Issue? && IsOpen(c, id)
    ensures !IsOpen(C.Step(c, e), id) ==>
              |c.answers| <= n < |C.Step(c, e).answers| && C.Step(c, e).answers[n].request == Some(id)
  {
    var c' := C.Step(c, e);
    ClientProofs.StepKeepsInv(c, e);
    ClientProofs.HistoriesGrow(c, e);
    n := 0;
    if !IsOpen(c', id) {
      assert c'.issued == c.issued;
      assert id in c.issued && ClientProofs.IsAnswered(c', id);
      n :| ClientProofs.IsAnsweredAt(c'.answers, id, n);
      if n < |c.answers| {
        assert ClientProofs.IsAnsweredAt(c.answers, id, n);
      }
    }
  }

  // ----- events at the client -----

  lemma BelowKeepsOwners(s: Stack, ce: C.Event)
    requires OwnersMatch(s) && Enabled(s, Below(ce))
    ensures OwnersMatch(Step(s, Below(ce)))
  {
    var s' := Step(s, Below(ce));
    forall id, r, i | ClientProofs.IsAt(s'.client, id, r, i)
      ensures id in s'.owners && s'.owners[id] == (r, s'.client.pending[r][i].app)
    {
      var j := EntriesKept(s.client, ce, id, r, i);
    }
  }

  /** The new answers of a longer history. */
  lemma SuffixDischarges(s: D.Service, owners: map<C.RequestId, Pair>, all: seq<C.Answer>, from: nat, now: Time, n: nat)
    requires DiscoveryProofs.Inv(s) && from <= n < |all| && all[n].request.Some? && all[n].request.value in owners
    requires var p := owners[all[n].request.value]; p.0 in s.receivers && p.1 == all[n].app
    ensures owners[all[n].request.value] !in Deliver(s, owners, all[from..], now).asked
  {
    assert all[from..][n - from] == all[n];
    DeliverDischarges(s, owners, all[from..], now, n - from);
  }

  /** A callback that an event runs discharges the pair of its request. */
  lemma CallbackDischarges(s: Stack, ce: C.Event, n: nat)
    requires DiscoveryProofs.Inv(s.service) && OwnersMatch(s) && Enabled(s, Below(ce))
    requires |s.client.answers| <= n < |C.Step(s.client, ce).answers|
    ensures var request := C.Step(s.client, ce).answers[n].request;
            && request.Some? && request.value in s.owners
            && (s.owners[request.value].0 in s.service.receivers ==>
                  s.owners[request.value] !in Step(s, Below(ce)).service.asked)
  {
    var c' := C.Step(s.client, ce);
    var r, i := CallbackOfPending(s.client, ce, n);
    if r in s.service.receivers {
      SuffixDischarges(s.service, s.owners, c'.answers, |s.client.answers|, c'.now, n);
    }
  }

  /** An outstanding pair stays backed, unless the callback has come and discharged it. */
  lemma BelowKeepsBacked(s: Stack, ce: C.Event, p: Pair)
    requires Inv(s) && Enabled(s, Below(ce)) && IsBacked(s, p) && p.0 in s.service.receivers
    ensures p in Step(s, Below(ce)).service.asked ==> IsBacked(Step(s, Below(ce)), p)
  {
    var id :| id in s.owners && s.owners[id] == p && IsOpen(s.client, id);
    var n := OpenOrAnswered(s.client, ce, id);
    if !IsOpen(C.Step(s.client, ce), id) {
      CallbackDischarges(s, ce, n);
    }
  }

  lemma BelowKeepsInv(s: Stack, ce: C.Event)
    requires Inv(s) && Enabled(s, Below(ce))
    ensures Inv(Step(s, Below(ce)))
  {
    ClientProofs.StepKeepsInv(s.client, ce);
    BelowKeepsService(s, ce);
    BelowKeepsOwners(s, ce);
    forall p | p in Step(s, Below(ce)).service.asked
      ensures IsBacked(Step(s, Below(ce)), p)
    {
      assert p in s.service.asked;
      BelowKeepsBacked(s, ce, p);
    }
  }

  lemma BelowKeepsService(s: Stack, ce: C.Event)
    requires DiscoveryProofs.Inv(s.service) && AskedPresent(s.service) && Enabled(s, Below(ce))
    ensures var service := Step(s, Below(ce)).service;
            DiscoveryProofs.Inv(service) && AskedPresent(service) && service.asked <= s.service.asked
  {
    var c' := C.Step(s.client, ce);
    ClientProofs.HistoriesGrow(s.client, ce);
    DeliverKeepsInv(s.service, s.owners, c'.answers[|s.client.answers|..], c'.now);
  }

  // ----- events at the service -----

  /** What is outstanding was so before, or is asked about now. */
  lemma AskedOrRequested(s: D.Service, e: D.Event)
    requires !e.Answer? && AskedPresent(s)
    ensures D.Step(s, e).asked <= s.asked + Requests(s, e)
    ensures AskedPresent(D.Step(s, e))
  {
  }

  /** A request for a receiver that the client knows backs its pair. */
  lemma KnownIsBacked(s: Stack, p: Pair)
    requires ClientProofs.Inv(s.client) && OwnersMatch(s) && s.client.alive && p.0 in s.client.sockets
    ensures var s' := AskOne(s, p);
            && s'.service == s.service && ClientProofs.Inv(s'.client) && s'.client.alive && OwnersMatch(s')
            && IsBacked(s', p) && forall q :: IsBacked(s, q) ==> IsBacked(s', q)
  {
    var c, s' := s.client, AskOne(s, p);
    ClientProofs.StepKeepsInv(c, C.Issue(p.0, p.1));
    ClientProofs.PendingAfterRequest(c, p.0, p.1, c.nextId);
    assert c.nextId !in c.issued;
    KnownKeepsOwners(s, p);
    assert s'.owners[c.nextId] == p && IsOpen(s'.client, c.nextId);
    forall q | IsBacked(s, q)
      ensures IsBacked(s', q)
    {
      var id :| id in s.owners && s.owners[id] == q && IsOpen(c, id);
      ClientProofs.PendingAfterRequest(c, p.0, p.1, id);
      assert s'.owners[id] == q && IsOpen(s'.client, id);
    }
  }

  lemma KnownKeepsOwners(s: Stack, p: Pair)
    requires OwnersMatch(s) && p.0 in s.client.sockets && s.client.nextId !in s.client.issued
    ensures OwnersMatch(AskOne(s, p))
  {
    var c, c' := s.client, AskOne(s, p).client;
    var n := |C.PendingOf(c, p.0)|;
    forall id, r, i | ClientProofs.IsAt(c', id, r, i)
      ensures id in AskOne(s, p).owners && AskOne(s, p).owners[id] == (r, c'.pending[r][i].app)
    {
      if !(r == p.0 && i == n) {
        assert ClientProofs.IsAt(c, id, r, i);
      }
    }
  }

  /** A request for a receiver that the client does not know is answered at once. */
  lemma UnknownIsDischarged(s: Stack, p: Pair)
    requires DiscoveryProofs.Inv(s.service) && AskedPresent(s.service) && ClientProofs.Inv(s.client) && OwnersMatch(s)
    requires s.client.alive && p.0 !in s.client.sockets
    ensures var s' := AskOne(s, p);
            && DiscoveryProofs.Inv(s'.service) && AskedPresent(s'.service) && s'.service.asked <= s.service.asked - {p}
            && ClientProofs.Inv(s'.client) && s'.client.alive && OwnersMatch(s')
            && forall q :: IsBacked(s, q) ==> IsBacked(s', q)
  {
    var s' := AskOne(s, p);
    ClientProofs.StepKeepsInv(s.client, C.Issue(p.0, p.1));
    DiscoveryProofs.AnswerKeepsInv(s.service, p.0, p.1, TrackerSpec.Unknown, s.client.now);
    AnswerDischarges(s.service, p.0, p.1, TrackerSpec.Unknown, s.client.now);
    assert forall id, r, i :: ClientProofs.IsAt(s'.client, id, r, i) <==> ClientProofs.IsAt(s.client, id, r, i);
    forall q | IsBacked(s, q)
      ensures IsBacked(s', q)
    {
      var id :| id in s.owners && s.owners[id] == q && IsOpen(s.client, id);
      assert IsOpen(s'.client, id);
    }
  }

  lemma AskKeepsInv(s: Stack, p: Pair, rest: set<Pair>)
    requires InvBut(s, rest) && s.client.alive
    ensures InvBut(AskOne(s, p), rest - {p}) && AskOne(s, p).client.alive
  {
    if p.0 in s.client.sockets {
      KnownIsBacked(s, p);
    } else {
      UnknownIsDischarged(s, p);
    }
  }

  lemma {:induction false} AskAllKeepsInv(s: Stack, order: seq<Pair>, rest: set<Pair>)
    requires InvBut(s, rest) && s.client.alive && forall p :: p in rest ==> p in order
    ensures Inv(AskAll(s, order))
    decreases |order|
  {
    if order == [] {
      assert rest == {};
    } else {
      AskKeepsInv(s, order[0], rest);
      assert order == [order[0]] + order[1..];
      AskAllKeepsInv(AskOne(s, order[0]), order[1..], rest - {order[0]});
    }
  }

  lemma AboveKeepsInv(s: Stack, de: D.Event, order: seq<Pair>)
    requires Inv(s) && Enabled(s, Above(de, order))
    ensures Inv(Step(s, Above(de, order)))
  {
    var s1 := s.(service := D.Step(s.service, de));
    DiscoveryProofs.StepKeepsInv(s.service, de);
    AskedOrRequested(s.service, de);
    var rest := Requests(s.service, de);
    forall p | p in s1.service.asked
      ensures p in rest || IsBacked(s1, p)
    {
      if p !in rest {
        assert IsBacked(s, p);
        var id :| id in s.owners && s.owners[id] == p && IsOpen(s.client, id);
        assert s1.owners[id] == p && IsOpen(s1.client, id);
      }
    }
    AskAllKeepsInv(s1, order, rest);
  }

  // ----- whole runs -----

  lemma {:induction false} AlwaysInv(ss: seq<Stack>, es: seq<Event>, i: nat)
    requires IsRun(ss, es) && i < |ss|
    ensures Inv(ss[i])
  {
    if i == 0 {
      ClientProofs.InitialInv(ss[0].client);
    } else {
      AlwaysInv(ss, es, i - 1);
      match es[i - 1]
      case Above(de, order) => AboveKeepsInv(ss[i - 1], de, order);
      case Below(ce) => BelowKeepsInv(ss[i - 1], ce);
    }
  }

  /**
   In every run of the service on top of the client, about a present receiver and an observed
   app there is a result; or else a request of which the client has it that it is pending, or
   was dropped: canceled, or replied to without a word about the app.
   */
  lemma KnownAskedOrDropped(ss: seq<Stack>, es: seq<Event>, i: nat, r: Id, a: Id) returns (id: C.RequestId)
    requires IsRun(ss, es) && i < |ss|
    requires r in ss[i].service.receivers && TrackerProofs.Total(ss[i].service.tracker.registered, a) > 0
    ensures a in TrackerSpec.ResultsOf(ss[i].service.tracker, r)
            || (id in ss[i].owners && ss[i].owners[id] == (r, a) && IsOpen(ss[i].client, id))
  {
    AlwaysInv(ss, es, i);
    id := 0;
    if a !in TrackerSpec.ResultsOf(ss[i].service.tracker, r) {
      assert (r, a) in ss[i].service.asked;
      assert IsBacked(ss[i], (r, a));
      id :| id in ss[i].owners && ss[i].owners[id] == (r, a) && IsOpen(ss[i].client, id);
    }
  }

  /** And every observer knows the current list, with the client's own callbacks as answers. */
  lemma ObserversAreUpToDate(ss: seq<Stack>, es: seq<Event>, i: nat, q: D.Query, id: Id)
    requires IsRun(ss, es) && i < |ss| && DiscoveryProofs.Watches(ss[i].service, q, id)
    ensures var s := ss[i].service;
            && id in s.tracker.registered
            && D.Knows(s, q) == D.CurrentList(s.receivers, s.tracker, s.tracker.registered[id])
  {
    AlwaysInv(ss, es, i);
  }

  // ----- the client's part -----

  lemma {:induction false} AskingRuns(s: Stack, order: seq<Pair>, cs: seq<C.Client>, ces: seq<C.Event>)
    returns (cs': seq<C.Client>, ces': seq<C.Event>)
    requires C.IsRun(cs, ces) && cs[|ces|] == s.client && s.client.alive
    ensures C.IsRun(cs', ces') && cs'[|ces'|] == AskAll(s, order).client
    decreases |order|
  {
    cs', ces' := cs, ces;
    if order != [] {
      cs', ces' := TimeoutProofs.OneMoreEvent(cs, ces, C.Issue(order[0].0, order[0].1));
      cs', ces' := AskingRuns(AskOne(s, order[0]), order[1..], cs', ces');
    }
  }

  /** The client's part of every run is a run of the client alone, whose theorems name the event that drops a request. */
  lemma {:induction false} ClientRuns(ss: seq<Stack>, es: seq<Event>, i: nat)
    returns (cs: seq<C.Client>, ces: seq<C.Event>)
    requires IsRun(ss, es) && i < |ss|
    ensures C.IsRun(cs, ces) && cs[|ces|] == ss[i].client
  {
    if i == 0 {
      cs, ces := [ss[0].client], [];
    } else {
      cs, ces := ClientRuns(ss, es, i - 1);
      match es[i - 1]
      case Above(de, order) => cs, ces := AskingRuns(ss[i - 1].(service := D.Step(ss[i - 1].service, de)), order, cs, ces);
      case Below(ce) => cs, ces := TimeoutProofs.OneMoreEvent(cs, ces, ce);
    }
  }

  /** A request that was dropped was canceled, or replied to without a word about its app. */
  lemma DroppedByAnEvent(ss: seq<Stack>, es: seq<Event>, i: nat, id: C.RequestId)
    returns (cs: seq<C.Client>, ces: seq<C.Event>, m: nat)
    requires IsRun(ss, es) && i < |ss| && ClientProofs.IsDropped(ss[i].client, id)
    ensures C.IsRun(cs, ces) && cs[|ces|] == ss[i].client
    ensures m < |ces| && ClientProofs.Drops(cs[m], id, ces[m])
  {
    cs, ces := ClientRuns(ss, es, i);
    ClientProofs.DroppedIffSomeEventDrops(cs, ces, |ces|, id);
    m :| m < |ces| && ClientProofs.Drops(cs[m], id, ces[m]);
  }
}

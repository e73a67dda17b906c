/** What the client's callbacks say is what the service then has, and nothing else. */
module StackAnswers {
  import opened Common
  import opened SortedKeys
  import opened StackSpec
  import opened StackProofs
  import C = ClientSpec
  import ClientProofs
  import D = DiscoverySpec
  import DiscoveryHistory
  import DiscoveryProofs
  import TrackerSpec

  /** The result that the service has for a receiver and an app. */
  ghost function Cached(s: D.Service, p: Pair): Option<TrackerSpec.Result> {
    DiscoveryHistory.AnswerOf(s, p.0, p.1)
  }

  lemma AnswerIsCached(s: D.Service, r: Id, app: Id, availability: TrackerSpec.AppAvailability, now: Time, p: Pair)
    ensures var s' := D.HandleAnswer(s, r, app, availability, now);
            && s'.receivers == s.receivers
            && Cached(s', p) ==
                 if (r, app) == p && r in s.receivers then Some(TrackerSpec.Result(availability, now)) else Cached(s, p)
  {
    DiscoveryHistory.AnswersStep(s, D.Answer(r, app, availability, now), p.0, p.1);
  }

  // ----- callbacks -----

  /** The callback is that of a request about the pair. */
  ghost predicate IsAbout(owners: map<C.RequestId, Pair>, a: C.Answer, p: Pair) {
    a.request.Some? && a.request.value in owners && owners[a.request.value].0 == p.0 && a.app == p.1
  }

  ghost predicate SomeAbout(owners: map<C.RequestId, Pair>, answers: seq<C.Answer>, p: Pair) {
    exists n :: 0 <= n < |answers| && IsAbout(owners, answers[n], p)
  }

  ghost predicate AllSay(owners: map<C.RequestId, Pair>, answers: seq<C.Answer>, p: Pair,
                         availability: TrackerSpec.AppAvailability)
  {
    forall n :: 0 <= n < |answers| && IsAbout(owners, answers[n], p) ==> answers[n].availability == availability
  }

  /** The callbacks about a pair leave their result; without any the result stays. */
  lemma {:induction false} DeliverCaches(s: D.Service, owners: map<C.RequestId, Pair>, answers: seq<C.Answer>, now: Time, p: Pair,
                                         availability: TrackerSpec.AppAvailability)
    requires p.0 in s.receivers && AllSay(owners, answers, p, availability)
    ensures Cached(Deliver(s, owners, answers, now), p) ==
              if SomeAbout(owners, answers, p) then Some(TrackerSpec.Result(availability, now)) else Cached(s, p)
    decreases |answers|
  {
    if answers != [] {
      var a, rest := answers[0], answers[1..];
      if a.request.Some? && a.request.value in owners {
        AnswerIsCached(s, owners[a.request.value].0, a.app, a.availability, now, p);
      }
      assert forall n :: 0 <= n < |rest| ==> rest[n] == answers[n + 1];
      DeliverCaches(DeliverOne(s, owners, a, now), owners, rest, now, p, availability);
      FirstOrRest(owners, answers, p);
    }
  }

  lemma FirstOrRest(owners: map<C.RequestId, Pair>, answers: seq<C.Answer>, p: Pair)
    requires answers != []
    ensures SomeAbout(owners, answers, p) <==> IsAbout(owners, answers[0], p) || SomeAbout(owners, answers[1..], p)
  {
    if n :| 0 <= n < |answers| && IsAbout(owners, answers[n], p) {
      assert n > 0 ==> answers[1..][n - 1] == answers[n];
    }
    if n :| 0 <= n < |answers[1..]| && IsAbout(owners, answers[1..][n], p) {
      assert answers[n + 1] == answers[1..][n];
    }
  }

  /** The callbacks that an event runs. */
  ghost function NewAnswers(c: C.Client, e: C.Event): seq<C.Answer> {
    ClientProofs.HistoriesGrow(c, e);
    C.Step(c, e).answers[|c.answers|..]
  }

  lemma BelowCaches(s: Stack, ce: C.Event, p: Pair, availability: TrackerSpec.AppAvailability)
    requires Enabled(s, Below(ce)) && p.0 in s.service.receivers
    requires AllSay(s.owners, NewAnswers(s.client, ce), p, availability)
    ensures Cached(Step(s, Below(ce)).service, p) ==
              if SomeAbout(s.owners, NewAnswers(s.client, ce), p)
              then Some(TrackerSpec.Result(availability, C.Step(s.client, ce).now))
              else Cached(s.service, p)
  {
    DeliverCaches(s.service, s.owners, NewAnswers(s.client, ce), C.Step(s.client, ce).now, p, availability);
  }

  // ----- replies -----

  /**
   In every run of the service on top of the client a reply that reaches the receiver of its
   request, and names its app, makes what it says the result that the service has.
   */
  lemma ReplyIsCached(ss: seq<Stack>, es: seq<Event>, i: nat, r: Id, k: int, socket: int, id: C.RequestId, reply: C.Reply)
    requires IsRun(ss, es) && i < |es| && es[i] == Below(C.Message(socket, id, reply))
    requires ClientProofs.IsAt(ss[i].client, id, r, k) && r in ss[i].service.receivers
    ensures var app, cached := ss[i].client.pending[r][k].app, Cached(ss[i + 1].service, (r, ss[i].client.pending[r][k].app));
            if ClientProofs.Receives(ss[i].client, r, socket) && app in reply
            then cached.Some? && cached.value.time == ss[i].client.now && ClientProofs.Says(reply[app], cached.value.availability)
            else cached == Cached(ss[i].service, (r, app))
  {
    var s, ce := ss[i], C.Message(socket, id, reply);
    var app := s.client.pending[r][k].app;
    AlwaysInv(ss, es, i);
    ClientProofs.ReplyReachesFirstReceiver(s.client, r, k, socket, id, reply);
    var called := NewAnswers(s.client, ce);
    if ClientProofs.Receives(s.client, r, socket) && app in reply {
      var availability :| ClientProofs.Says(reply[app], availability)
        && C.HandleMessage(s.client, socket, id, reply).answers == s.client.answers + [C.Answer(Some(id), app, availability)];
      assert called == [C.Answer(Some(id), app, availability)];
      assert IsAbout(s.owners, called[0], (r, app));
      BelowCaches(s, ce, (r, app), availability);
    } else {
      assert called == [];
      BelowCaches(s, ce, (r, app), TrackerSpec.Unknown);
    }
  }

  // ----- giving up -----

  /** The event gives up a request of the receiver. */
  ghost predicate GivesUp(e: C.Event, r: Id, id: C.RequestId) {
    match e
    case Timeout(x) => x == id
    case Remove(x) => x == r
    case Destroy => true
    case _ => false
  }

  lemma GivenUpUnknown(c: C.Client, e: C.Event, n: nat)
    requires (e.Timeout? || e.Remove? || e.Destroy?) && n < |NewAnswers(c, e)|
    ensures NewAnswers(c, e)[n].availability == TrackerSpec.Unknown
  {
  }

  lemma GivenUpIsAnswered(s: Stack, ce: C.Event, r: Id, k: int, id: C.RequestId)
    requires Inv(s) && Enabled(s, Below(ce)) && ClientProofs.IsAt(s.client, id, r, k) && GivesUp(ce, r, id)
    ensures SomeAbout(s.owners, NewAnswers(s.client, ce), (r, s.client.pending[r][k].app))
  {
    var c, c' := s.client, C.Step(s.client, ce);
    ClientProofs.StepKeepsInv(c, ce);
    GivenUpIsClosed(c, ce, r, k, id);
    var n := OpenOrAnswered(c, ce, id);
    var r', k' := CallbackOfPending(c, ce, n);
    assert NewAnswers(c, ce)[n - |c.answers|] == c'.answers[n];
    assert r' == r && k' == k;
    assert IsAbout(s.owners, NewAnswers(c, ce)[n - |c.answers|], (r, c.pending[r][k].app));
  }

  lemma GivenUpIsClosed(c: C.Client, e: C.Event, r: Id, k: int, id: C.RequestId)
    requires ClientProofs.Inv(c) && ClientProofs.IsAt(c, id, r, k) && GivesUp(e, r, id)
    ensures !IsOpen(C.Step(c, e), id)
  {
    assert ClientProofs.IsPending(c, id);
    if e.Timeout? {
      ClientProofs.TimeoutAnswers(c, id);
    }
    assert C.Step(c, e).dropped == c.dropped;
    assert e.Remove? ==> forall x, n :: ClientProofs.IsAt(C.Step(c, e), id, x, n) ==> ClientProofs.IsAt(c, id, x, n) && x != r;
  }

  /** A request that times out, or that is given up with its receiver or the client, leaves no result but the time. */
  lemma GivingUpIsCached(ss: seq<Stack>, es: seq<Event>, i: nat, r: Id, k: int, id: C.RequestId)
    requires IsRun(ss, es) && i < |es| && es[i].Below? && GivesUp(es[i].ce, r, id)
    requires ClientProofs.IsAt(ss[i].client, id, r, k) && r in ss[i].service.receivers
    ensures Cached(ss[i + 1].service, (r, ss[i].client.pending[r][k].app)) ==
              Some(TrackerSpec.Result(TrackerSpec.Unknown, ss[i].client.now))
  {
    var s, ce := ss[i], es[i].ce;
    var p := (r, s.client.pending[r][k].app);
    AlwaysInv(ss, es, i);
    GivenUpIsAnswered(s, ce, r, k, id);
    forall n | 0 <= n < |NewAnswers(s.client, ce)|
      ensures NewAnswers(s.client, ce)[n].availability == TrackerSpec.Unknown
    {
      GivenUpUnknown(s.client, ce, n);
    }
    BelowCaches(s, ce, p, TrackerSpec.Unknown);
  }

  // ----- asking -----

  /** Asking leaves no result but the time for receivers that the client does not know, and changes nothing else. */
  lemma {:induction false} AskAllCaches(s: Stack, order: seq<Pair>, p: Pair)
    ensures AskAll(s, order).service.receivers == s.service.receivers
    ensures Cached(AskAll(s, order).service, p) ==
              if p in order && p.0 !in s.client.sockets && p.0 in s.service.receivers
              then Some(TrackerSpec.Result(TrackerSpec.Unknown, s.client.now))
              else Cached(s.service, p)
    decreases |order|
  {
    if order != [] {
      var q := order[0];
      var s1 := AskOne(s, q);
      assert order == [q] + order[1..];
      assert s1.client.sockets == s.client.sockets && s1.client.now == s.client.now;
      AnswerIsCached(s.service, q.0, q.1, TrackerSpec.Unknown, s.client.now, p);
      AskAllCaches(s1, order[1..], p);
    }
  }

  /** What an event at the service leaves of the results. */
  lemma AskingIsCached(ss: seq<Stack>, es: seq<Event>, i: nat, p: Pair)
    requires IsRun(ss, es) && i < |es| && es[i].Above?
    ensures Cached(ss[i + 1].service, p) ==
              if p in es[i].order && p.0 !in ss[i].client.sockets
              then Some(TrackerSpec.Result(TrackerSpec.Unknown, ss[i].client.now))
              else if es[i].de.Remove? && es[i].de.receiver == p.0 then None
              else Cached(ss[i].service, p)
  {
    var s, de := ss[i].service, es[i].de;
    AskAllCaches(ss[i].(service := D.Step(s, de)), es[i].order, p);
    DiscoveryHistory.AnswersStep(s, de, p.0, p.1);
    if p in es[i].order {
      assert p in (set q | q in es[i].order);
      assert p in Requests(s, de);
    }
  }

  // ----- the service's part -----

  lemma OneMoreEvent(ds: seq<D.Service>, des: seq<D.Event>, de: D.Event) returns (ds': seq<D.Service>, des': seq<D.Event>)
    requires D.IsRun(ds, des) && D.Enabled(ds[|des|], de)
    ensures D.IsRun(ds', des') && ds'[|des'|] == D.Step(ds[|des|], de)
  {
    var n := |des|;
    ds', des' := ds + [D.Step(ds[n], de)], des + [de];
    forall i | 0 <= i < |des'|
      ensures D.Enabled(ds'[i], des'[i]) && ds'[i + 1] == D.Step(ds'[i], des'[i])
    {
      if i < n {
        assert ds'[i] == ds[i] && ds'[i + 1] == ds[i + 1] && des'[i] == des[i];
      }
    }
  }

  lemma {:induction false} DeliveringRuns(s: D.Service, owners: map<C.RequestId, Pair>, answers: seq<C.Answer>, now: Time,
                                          ds: seq<D.Service>, des: seq<D.Event>)
    returns (ds': seq<D.Service>, des': seq<D.Event>)
    requires D.IsRun(ds, des) && ds[|des|] == s
    ensures D.IsRun(ds', des') && ds'[|des'|] == Deliver(s, owners, answers, now)
    decreases |answers|
  {
    ds', des' := ds, des;
    if answers != [] {
      var a := answers[0];
      if a.request.Some? && a.request.value in owners {
        ds', des' := OneMoreEvent(ds, des, D.Answer(owners[a.request.value].0, a.app, a.availability, now));
      }
      ds', des' := DeliveringRuns(DeliverOne(s, owners, a, now), owners, answers[1..], now, ds', des');
    }
  }

  lemma {:induction false} AskingRunsService(s: Stack, order: seq<Pair>, ds: seq<D.Service>, des: seq<D.Event>)
    returns (ds': seq<D.Service>, des': seq<D.Event>)
    requires D.IsRun(ds, des) && ds[|des|] == s.service
    ensures D.IsRun(ds', des') && ds'[|des'|] == AskAll(s, order).service
    decreases |order|
  {
    ds', des' := ds, des;
    if order != [] {
      var p := order[0];
      if p.0 !in s.client.sockets {
        ds', des' := OneMoreEvent(ds, des, D.Answer(p.0, p.1, TrackerSpec.Unknown, s.client.now));
      }
      ds', des' := AskingRunsService(AskOne(s, p), order[1..], ds', des');
    }
  }

  lemma ServiceRunsOn(s: Stack, e: Event, ds: seq<D.Service>, des: seq<D.Event>) returns (ds': seq<D.Service>, des': seq<D.Event>)
    requires Enabled(s, e) && D.IsRun(ds, des) && ds[|des|] == s.service
    ensures D.IsRun(ds', des') && ds'[|des'|] == Step(s, e).service
  {
    match e
    case Above(de, order) =>
      ds', des' := OneMoreEvent(ds, des, de);
      ds', des' := AskingRunsService(s.(service := D.Step(s.service, de)), order, ds', des');
    case Below(ce) =>
      ds', des' := DeliveringRuns(s.service, s.owners, NewAnswers(s.client, ce), C.Step(s.client, ce).now, ds, des);
  }

  /** The service's part of every run is a run of the service alone, so what is proved of those holds here. */
  lemma {:induction false} ServiceRuns(ss: seq<Stack>, es: seq<Event>, i: nat) returns (ds: seq<D.Service>, des: seq<D.Event>)
    requires IsRun(ss, es) && i < |ss|
    ensures D.IsRun(ds, des) && ds[|des|] == ss[i].service
  {
    if i == 0 {
      ds, des := [ss[0].service], [];
    } else {
      ds, des := ServiceRuns(ss, es, i - 1);
      ds, des := ServiceRunsOn(ss[i - 1], es[i - 1], ds, des);
    }
  }

  // ----- from the reply to the observer -----

  lemma {:induction false} DeliverKeepsQueries(s: D.Service, owners: map<C.RequestId, Pair>, answers: seq<C.Answer>, now: Time)
    ensures var s' := Deliver(s, owners, answers, now);
            s'.queries == s.queries && s'.tracker.registered == s.tracker.registered && s'.receivers == s.receivers
    decreases |answers|
  {
    if answers != [] {
      DeliverKeepsQueries(DeliverOne(s, owners, answers[0], now), owners, answers[1..], now);
    }
  }

  /**
   In every run, when a reply that an app is available reaches the receiver of its request, then
   every observer of a source with that app has the receiver, as it was last described, in its list.
   */
  lemma ReplyReachesObservers(ss: seq<Stack>, es: seq<Event>, i: nat, r: Id, k: int, socket: int, id: C.RequestId,
                              reply: C.Reply, q: D.Query, x: Id)
    requires IsRun(ss, es) && i < |es| && es[i] == Below(C.Message(socket, id, reply))
    requires ClientProofs.IsAt(ss[i].client, id, r, k) && r in ss[i].service.receivers
    requires ClientProofs.Receives(ss[i].client, r, socket)
    requires var app := ss[i].client.pending[r][k].app;
             && app in reply && reply[app].AppAvailable?
             && DiscoveryProofs.Watches(ss[i].service, q, x)
             && x in ss[i].service.tracker.registered && app in ss[i].service.tracker.registered[x].appIds
    ensures ss[i].service.receivers[r] in D.Knows(ss[i + 1].service, q)
  {
    var s, s' := ss[i].service, ss[i + 1].service;
    var ce := C.Message(socket, id, reply);
    DeliverKeepsQueries(s, ss[i].owners, NewAnswers(ss[i].client, ce), C.Step(ss[i].client, ce).now);
    ReplyIsCached(ss, es, i, r, k, socket, id, reply);
    var ds, des := ServiceRuns(ss, es, i + 1);
    CachedIsKnown(ds, des, |des|, r, ss[i].client.pending[r][k].app, q, x);
  }

  lemma CachedIsKnown(ds: seq<D.Service>, des: seq<D.Event>, i: nat, r: Id, app: Id, q: D.Query, x: Id)
    requires D.IsRun(ds, des) && i < |ds| && DiscoveryProofs.Watches(ds[i], q, x) && r in ds[i].receivers
    requires Cached(ds[i], (r, app)).Some? && Cached(ds[i], (r, app)).value.availability.Available?
    requires x in ds[i].tracker.registered && app in ds[i].tracker.registered[x].appIds
    ensures ds[i].receivers[r] in D.Knows(ds[i], q)
  {
    DiscoveryProofs.ListMatchesReceivers(ds, des, i, q, x);
    var ids := TrackerSpec.GetAvailableReceivers(ds[i].tracker, ds[i].tracker.registered[x]);
    assert TrackerSpec.IsAvailable(TrackerSpec.ResultsOf(ds[i].tracker, r), app);
    assert r in ids;
    var n :| 0 <= n < |ids| && ids[n] == r;
    assert D.Knows(ds[i], q)[n] == ds[i].receivers[r];
  }
}

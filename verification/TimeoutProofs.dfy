/** Timeouts come for pending requests only, not early, and not more than a lag late. */
module TimeoutProofs {
  import opened Common
  import opened TimeoutSpec
  import A = AlarmSpec
  import AlarmProofs
  import C = ClientSpec
  import ClientProofs
  import opened SortedKeys

  /** The alarm of a pending request waits for five seconds after the request was made, or longer. */
  ghost predicate IsArmed(w: A.World, issued: Time) {
    w.alarm.task.Some? && issued + C.REQUEST_TIMEOUT <= w.alarm.alarmTime && A.Armed(w)
  }

  /** One request's alarm: it lives and is armed exactly as long as the request is pending. */
  ghost predicate AlarmInOrder(w: A.World, pending: bool, issued: Time, now: Time) {
    A.Linked(w) && w.now <= now && w.alarm.alive == pending && (pending ==> IsArmed(w, issued))
  }

  ghost predicate AlarmsInOrder(s: System) {
    && s.alarms.Keys == s.client.issued.Keys
    && forall id :: id in s.alarms ==>
         AlarmInOrder(s.alarms[id], C.Holders(s.client, id) != {}, s.client.issued[id], s.client.now)
  }

  ghost predicate Inv(s: System) {
    ClientProofs.Inv(s.client) && AlarmsInOrder(s)
  }

  // ----- one alarm -----

  lemma DestroyInOrder(w: A.World, issued: Time, now: Time)
    requires A.Linked(w) && w.now <= now
    ensures AlarmInOrder(A.DestroyAlarm(w), false, issued, now)
  {
    if w.alarm.alive {
      AlarmProofs.StepKeepsLinked(w, A.Destroy);
    }
  }

  lemma CatchUpInOrder(w: A.World, pending: bool, issued: Time, now: Time)
    requires AlarmInOrder(w, pending, issued, now)
    ensures AlarmInOrder(w.(now := now), pending, issued, now)
  {
  }

  lemma ScheduleInOrder(now: Time, wait: nat, lag: nat)
    ensures var w := NewAlarm(now, wait, lag);
            w.now == now + wait + lag && AlarmInOrder(w, true, now, now + wait + lag)
  {
  }

  lemma MoveInOrder(w: A.World, f: A.FunctorId, pending: bool, issued: Time)
    requires AlarmInOrder(w, pending, issued, w.now) && A.Enabled(w, A.Move(f))
    ensures AlarmInOrder(A.Step(w, A.Move(f)).world, pending, issued, w.now)
  {
    AlarmProofs.StepKeepsLinked(w, A.Move(f));
    AlarmProofs.StepKeepsArmed(w, A.Move(f));
  }

  /** A firing either runs the task of a pending request whose time is up, or changes nothing that matters. */
  lemma FireInOrder(w: A.World, f: A.FunctorId, lag: nat, pending: bool, issued: Time)
    requires AlarmInOrder(w, pending, issued, w.now) && A.Enabled(w, A.Fire(f, lag))
    ensures var fired := A.Step(w, A.Fire(f, lag));
            && w.now <= fired.world.now <= w.now + lag
            && A.Linked(fired.world) && fired.world.alarm.alive == pending
            && (fired.ran.Some? ==> pending && issued + C.REQUEST_TIMEOUT <= w.now && fired.world.now == w.now)
            && (fired.ran.None? ==> AlarmInOrder(fired.world, pending, issued, fired.world.now))
  {
    AlarmProofs.StepKeepsLinked(w, A.Fire(f, lag));
    AlarmProofs.StepKeepsArmed(w, A.Fire(f, lag));
  }

  // ----- the system -----

  /** Erased requests lose their alarm; those that are still pending keep it. */
  lemma SettleInOrder(alarms: map<C.RequestId, A.World>, c: C.Client)
    requires alarms.Keys == c.issued.Keys
    requires forall id :: id in alarms ==>
      && A.Linked(alarms[id]) && alarms[id].now <= c.now
      && (C.Holders(c, id) != {} ==> AlarmInOrder(alarms[id], true, c.issued[id], c.now))
    ensures AlarmsInOrder(System(c, Settled(alarms, c)))
  {
    forall id | id in alarms
      ensures AlarmInOrder(Settled(alarms, c)[id], C.Holders(c, id) != {}, c.issued[id], c.now)
    {
      if C.Holders(c, id) == {} {
        DestroyInOrder(alarms[id], c.issued[id], c.now);
      }
    }
  }

  /** Only a request makes a request pending. */
  lemma NothingNew(c: C.Client, e: C.Event)
    requires ClientProofs.Inv(c) && C.Enabled(c, e) && !e.Issue?
    ensures C.Step(c, e).issued == c.issued && c.now <= C.Step(c, e).now
    ensures forall id :: C.Holders(C.Step(c, e), id) != {} ==> C.Holders(c, id) != {}
  {
    var c' := C.Step(c, e);
    ClientProofs.StepKeepsInv(c, e);
    forall id | C.Holders(c', id) != {}
      ensures C.Holders(c, id) != {}
    {
      ClientProofs.NoHolders(c', id);
      ClientProofs.NoHolders(c, id);
      ClientProofs.PendingWasPending(c, e, id);
    }
  }

  lemma CallKeepsInv(s: System, e: C.Event)
    requires Inv(s) && Enabled(s, Call(e))
    ensures Inv(Step(s, Call(e)))
  {
    ClientProofs.StepKeepsInv(s.client, e);
    NothingNew(s.client, e);
    SettleInOrder(s.alarms, C.Step(s.client, e));
  }

  /** After a request just that one is pending besides. */
  lemma OneMore(c: C.Client, receiver: Id, app: Id)
    requires ClientProofs.Inv(c) && c.alive && receiver in c.sockets
    ensures var c' := C.Step(c, C.Issue(receiver, app));
            && c.nextId !in c.issued && c'.issued == c.issued[c.nextId := c.now]
            && forall id :: C.Holders(c', id) != {} <==> C.Holders(c, id) != {} || id == c.nextId
  {
    var c' := C.Step(c, C.Issue(receiver, app));
    ClientProofs.StepKeepsInv(c, C.Issue(receiver, app));
    forall id
      ensures C.Holders(c', id) != {} <==> C.Holders(c, id) != {} || id == c.nextId
    {
      ClientProofs.NoHolders(c', id);
      ClientProofs.NoHolders(c, id);
      ClientProofs.PendingAfterRequest(c, receiver, app, id);
    }
  }

  /** The new request's alarm is in order, and so are the others still. */
  lemma AddAlarmInOrder(s: System, c: C.Client, w: A.World, id: C.RequestId, lag: nat)
    requires AlarmsInOrder(s) && id !in s.client.issued && c.issued == s.client.issued[id := s.client.now]
    requires c.now == s.client.now + lag && AlarmInOrder(w, true, s.client.now, c.now)
    requires forall x :: C.Holders(c, x) != {} <==> C.Holders(s.client, x) != {} || x == id
    ensures AlarmsInOrder(System(c, s.alarms[id := w]))
  {
  }

  /** If time goes on but no request comes or goes, the alarms stay in order. */
  lemma LaterInOrder(s: System, c: C.Client)
    requires AlarmsInOrder(s) && c.issued == s.client.issued && c.pending == s.client.pending && s.client.now <= c.now
    ensures AlarmsInOrder(System(c, s.alarms))
  {
    assert forall x :: C.Holders(c, x) == C.Holders(s.client, x);
  }

  lemma RequestKeepsAlarms(s: System, receiver: Id, app: Id, wait: nat, lag: nat)
    requires Inv(s) && s.client.alive
    ensures AlarmsInOrder(MakeRequest(s, receiver, app, wait, lag))
  {
    var s' := MakeRequest(s, receiver, app, wait, lag);
    if receiver in s.client.sockets {
      OneMore(s.client, receiver, app);
      ScheduleInOrder(s.client.now, wait, lag);
      var issued := C.Step(s.client, C.Issue(receiver, app));
      assert forall id :: C.Holders(s'.client, id) == C.Holders(issued, id);
      AddAlarmInOrder(s, s'.client, s'.alarms[s.client.nextId], s.client.nextId, wait + lag);
    } else {
      LaterInOrder(s, s'.client);
    }
  }

  lemma RequestKeepsInv(s: System, receiver: Id, app: Id, wait: nat, lag: nat)
    requires Inv(s) && s.client.alive
    ensures Inv(MakeRequest(s, receiver, app, wait, lag))
  {
    RequestKeepsAlarms(s, receiver, app, wait, lag);
    ClientProofs.StepKeepsInv(s.client, C.Issue(receiver, app));
    ClientProofs.StepKeepsInv(C.Step(s.client, C.Issue(receiver, app)), C.Tick(wait + lag));
  }

  /** A firing that runs the alarm's task is a timeout of the client's, for a pending request whose time is up. */
  lemma TimeoutIsEnabled(s: System, id: C.RequestId, f: A.FunctorId, lag: nat)
    requires Inv(s) && Enabled(s, RunTask(id, f, lag)) && Fired(s, id, f, lag).ran.Some?
    ensures C.Holders(s.client, id) != {} && s.client.issued[id] + C.REQUEST_TIMEOUT <= s.client.now
    ensures C.Enabled(s.client, C.Timeout(id))
  {
    var c := s.client;
    CatchUpInOrder(s.alarms[id], C.Holders(c, id) != {}, c.issued[id], c.now);
    FireInOrder(AlarmOf(s, id), f, lag, C.Holders(c, id) != {}, c.issued[id]);
    var r := MinKey(C.Holders(c, id));
    assert r in C.Holders(c, id);
  }

  /** After the timeout its request is not pending any more, and no other has become so. */
  lemma OneLess(c: C.Client, id: C.RequestId)
    requires ClientProofs.Inv(c) && C.Holders(c, id) != {} && C.Enabled(c, C.Timeout(id))
    ensures var c' := C.Step(c, C.Timeout(id));
            && c'.issued == c.issued && c'.now == c.now && C.Holders(c', id) == {}
            && forall x :: C.Holders(c', x) != {} ==> C.Holders(c, x) != {}
  {
    NothingNew(c, C.Timeout(id));
    ClientProofs.NoHolders(c, id);
    ClientProofs.TimeoutAnswers(c, id);
    ClientProofs.NoHolders(C.Step(c, C.Timeout(id)), id);
  }

  lemma TimeoutKeepsAlarms(s: System, id: C.RequestId, f: A.FunctorId, lag: nat, c': C.Client)
    requires AlarmsInOrder(s) && Enabled(s, RunTask(id, f, lag)) && Fired(s, id, f, lag).ran.Some?
    requires c'.issued == s.client.issued && c'.now == s.client.now && C.Holders(c', id) == {}
    requires forall x :: C.Holders(c', x) != {} ==> C.Holders(s.client, x) != {}
    ensures AlarmsInOrder(System(c', Settled(s.alarms[id := Fired(s, id, f, lag).world], c')))
  {
    var c := s.client;
    CatchUpInOrder(s.alarms[id], C.Holders(c, id) != {}, c.issued[id], c.now);
    FireInOrder(AlarmOf(s, id), f, lag, C.Holders(c, id) != {}, c.issued[id]);
    SettleInOrder(s.alarms[id := Fired(s, id, f, lag).world], c');
  }

  lemma TimeoutKeepsInv(s: System, id: C.RequestId, f: A.FunctorId, lag: nat)
    requires Inv(s) && Enabled(s, RunTask(id, f, lag)) && Fired(s, id, f, lag).ran.Some?
    ensures Inv(Run(s, id, f, lag))
  {
    TimeoutIsEnabled(s, id, f, lag);
    ClientProofs.StepKeepsInv(s.client, C.Timeout(id));
    OneLess(s.client, id);
    TimeoutKeepsAlarms(s, id, f, lag, C.Step(s.client, C.Timeout(id)));
  }

  lemma EarlyFiringKeepsAlarms(s: System, id: C.RequestId, f: A.FunctorId, lag: nat)
    requires AlarmsInOrder(s) && Enabled(s, RunTask(id, f, lag)) && Fired(s, id, f, lag).ran.None?
    ensures AlarmsInOrder(Run(s, id, f, lag)) && s.client.now <= Fired(s, id, f, lag).world.now
  {
    var c := s.client;
    CatchUpInOrder(s.alarms[id], C.Holders(c, id) != {}, c.issued[id], c.now);
    FireInOrder(AlarmOf(s, id), f, lag, C.Holders(c, id) != {}, c.issued[id]);
    LaterInOrder(s, Run(s, id, f, lag).client);
  }

  lemma EarlyFiringKeepsInv(s: System, id: C.RequestId, f: A.FunctorId, lag: nat)
    requires Inv(s) && Enabled(s, RunTask(id, f, lag)) && Fired(s, id, f, lag).ran.None?
    ensures Inv(Run(s, id, f, lag))
  {
    var now := Fired(s, id, f, lag).world.now;
    EarlyFiringKeepsAlarms(s, id, f, lag);
    LaterKeepsClient(s.client, now);
    assert Run(s, id, f, lag).client == s.client.(now := now);
  }

  lemma LaterKeepsClient(c: C.Client, now: Time)
    requires ClientProofs.Inv(c) && c.now <= now
    ensures ClientProofs.Inv(c.(now := now))
  {
    ClientProofs.StepKeepsInv(c, C.Tick(now - c.now));
  }

  lemma MoveKeepsInv(s: System, id: C.RequestId, f: A.FunctorId)
    requires Inv(s) && Enabled(s, MoveTask(id, f))
    ensures Inv(Step(s, MoveTask(id, f)))
  {
    CatchUpInOrder(s.alarms[id], C.Holders(s.client, id) != {}, s.client.issued[id], s.client.now);
    MoveInOrder(AlarmOf(s, id), f, C.Holders(s.client, id) != {}, s.client.issued[id]);
  }

  lemma StepKeepsInv(s: System, e: Event)
    requires Inv(s) && Enabled(s, e)
    ensures Inv(Step(s, e))
  {
    match e
    case Call(ce) => CallKeepsInv(s, ce);
    case Request(receiver, app, wait, lag) => RequestKeepsInv(s, receiver, app, wait, lag);
    case RunTask(id, f, lag) =>
      if Fired(s, id, f, lag).ran.Some? {
        TimeoutKeepsInv(s, id, f, lag);
      } else {
        EarlyFiringKeepsInv(s, id, f, lag);
      }
    case MoveTask(id, f) => MoveKeepsInv(s, id, f);
  }

  lemma {:induction false} AlwaysInv(ss: seq<System>, es: seq<Event>, i: nat)
    requires IsRun(ss, es) && i < |ss|
    ensures Inv(ss[i])
  {
    if i == 0 {
      ClientProofs.InitialInv(ss[0].client);
    } else {
      AlwaysInv(ss, es, i - 1);
      StepKeepsInv(ss[i - 1], es[i - 1]);
    }
  }

  // ----- theorems -----

  /**
   In every run, a firing that runs an alarm's task does so for a request that is pending and
   was made five seconds ago or earlier; its callback is called, with no result.  Any other
   firing, of a functor left over or too early, leaves the client's table as it is.
   */
  lemma TimeoutsArePending(ss: seq<System>, es: seq<Event>, i: nat)
    requires IsRun(ss, es) && i < |es| && es[i].RunTask?
    ensures var c, c', e := ss[i].client, ss[i + 1].client, es[i];
            if Fired(ss[i], e.id, e.f, e.lag).ran.Some? then
              && ClientProofs.IsPending(c, e.id)
              && e.id in c.issued && c.issued[e.id] + C.REQUEST_TIMEOUT <= c.now
              && ClientProofs.IsAnsweredOnce(c', e.id) && !ClientProofs.IsPending(c', e.id)
              && |c'.answers| == |c.answers| + 1 && c'.answers[|c.answers|].request == Some(e.id)
            else c' == c.(now := c'.now)
  {
    var s, e := ss[i], es[i];
    AlwaysInv(ss, es, i);
    if Fired(s, e.id, e.f, e.lag).ran.Some? {
      TimeoutIsEnabled(s, e.id, e.f, e.lag);
      ClientProofs.NoHolders(s.client, e.id);
      ClientProofs.TimeoutAnswers(s.client, e.id);
      AlwaysInv(ss, es, i + 1);
    }
  }

  ghost predicate LagsAtMost(e: Event, limit: nat) {
    (e.Request? || e.RunTask? ==> e.lag <= limit) && (e.Request? ==> e.wait <= limit)
  }

  /** How long after its request an alarm may be set for, with clock readings `limit` apart. */
  ghost function LongestTimeout(limit: nat): Time {
    Max(C.REQUEST_TIMEOUT, limit)
  }

  ghost predicate AlarmPrompt(w: A.World, issued: Time, limit: nat) {
    A.Prompt(w, limit) && (w.alarm.task.Some? ==> w.alarm.alarmTime <= issued + LongestTimeout(limit))
  }

  ghost predicate AlarmsPrompt(s: System, limit: nat) {
    forall id :: id in s.alarms ==> id in s.client.issued && AlarmPrompt(s.alarms[id], s.client.issued[id], limit)
  }

  lemma NewAlarmPrompt(now: Time, wait: nat, lag: nat, limit: nat)
    requires wait <= limit && lag <= limit
    ensures AlarmPrompt(NewAlarm(now, wait, lag), now, limit)
  {
  }

  lemma DestroyKeepsPrompt(w: A.World, issued: Time, limit: nat)
    requires A.Linked(w)
    ensures AlarmPrompt(A.DestroyAlarm(w), issued, limit)
  {
    if w.alarm.alive {
      AlarmProofs.StepKeepsLinked(w, A.Destroy);
    }
  }

  lemma SettleKeepsPrompt(alarms: map<C.RequestId, A.World>, c: C.Client, limit: nat)
    requires forall id :: id in alarms ==> id in c.issued && A.Linked(alarms[id]) && AlarmPrompt(alarms[id], c.issued[id], limit)
    ensures AlarmsPrompt(System(c, Settled(alarms, c)), limit)
  {
    forall id | id in alarms
      ensures AlarmPrompt(Settled(alarms, c)[id], c.issued[id], limit)
    {
      DestroyKeepsPrompt(alarms[id], c.issued[id], limit);
    }
  }

  lemma FireKeepsPrompt(w: A.World, f: A.FunctorId, lag: nat, issued: Time, limit: nat)
    requires A.Linked(w) && AlarmPrompt(w, issued, limit) && A.Enabled(w, A.Fire(f, lag)) && lag <= limit
    ensures A.Linked(A.Step(w, A.Fire(f, lag)).world) && AlarmPrompt(A.Step(w, A.Fire(f, lag)).world, issued, limit)
  {
    AlarmProofs.StepKeepsLinked(w, A.Fire(f, lag));
    AlarmProofs.StepKeepsPrompt(w, A.Fire(f, lag), limit);
  }

  lemma RunKeepsPrompt(s: System, id: C.RequestId, f: A.FunctorId, lag: nat, limit: nat)
    requires Inv(s) && Enabled(s, RunTask(id, f, lag)) && lag <= limit && AlarmsPrompt(s, limit)
    ensures AlarmsPrompt(Run(s, id, f, lag), limit)
  {
    FireKeepsPrompt(AlarmOf(s, id), f, lag, s.client.issued[id], limit);
    if Fired(s, id, f, lag).ran.Some? {
      TimeoutIsEnabled(s, id, f, lag);
      NothingNew(s.client, C.Timeout(id));
      SettleKeepsPrompt(s.alarms[id := Fired(s, id, f, lag).world], C.Step(s.client, C.Timeout(id)), limit);
    }
  }

  lemma RequestKeepsPrompt(s: System, receiver: Id, app: Id, wait: nat, lag: nat, limit: nat)
    requires Inv(s) && s.client.alive && wait <= limit && lag <= limit && AlarmsPrompt(s, limit)
    ensures AlarmsPrompt(MakeRequest(s, receiver, app, wait, lag), limit)
  {
    NewAlarmPrompt(s.client.now, wait, lag, limit);
    if receiver in s.client.sockets {
      OneMore(s.client, receiver, app);
    }
  }

  lemma StepKeepsPrompt(s: System, e: Event, limit: nat)
    requires Inv(s) && Enabled(s, e) && LagsAtMost(e, limit) && AlarmsPrompt(s, limit)
    ensures AlarmsPrompt(Step(s, e), limit)
  {
    match e
    case Call(ce) =>
      NothingNew(s.client, ce);
      SettleKeepsPrompt(s.alarms, C.Step(s.client, ce), limit);
    case Request(receiver, app, wait, lag) => RequestKeepsPrompt(s, receiver, app, wait, lag, limit);
    case RunTask(id, f, lag) => RunKeepsPrompt(s, id, f, lag, limit);
    case MoveTask(id, f) => AlarmProofs.StepKeepsPrompt(AlarmOf(s, id), A.Move(f), limit);
  }

  lemma PromptAfter(ss: seq<System>, es: seq<Event>, m: nat, limit: nat)
    requires IsRun(ss, es) && m < |es| && LagsAtMost(es[m], limit) && AlarmsPrompt(ss[m], limit)
    ensures AlarmsPrompt(ss[m + 1], limit)
  {
    AlwaysInv(ss, es, m);
    StepKeepsPrompt(ss[m], es[m], limit);
  }

  lemma {:induction false} AlwaysPrompt(ss: seq<System>, es: seq<Event>, i: nat, limit: nat)
    requires IsRun(ss, es) && i < |ss|
    requires forall m :: 0 <= m < i ==> LagsAtMost(es[m], limit)
    ensures AlarmsPrompt(ss[i], limit)
  {
    if i > 0 {
      AlwaysPrompt(ss, es, i - 1, limit);
      PromptAfter(ss, es, i - 1, limit);
    }
  }

  /** The task runner has called every functor of every alarm that is due. */
  ghost predicate CaughtUp(s: System) {
    forall id, f :: id in s.alarms && f in s.alarms[id].queue ==> s.client.now < s.alarms[id].queue[f].due
  }

  /**
   In every run, once the task runner has caught up, every request made five seconds ago
   or earlier, plus the longest time between two readings of the clock, is settled.
   */
  lemma SettledByDeadline(ss: seq<System>, es: seq<Event>, i: nat, id: C.RequestId, limit: nat)
    requires IsRun(ss, es) && i < |ss| && CaughtUp(ss[i])
    requires forall m :: 0 <= m < i ==> LagsAtMost(es[m], limit)
    requires id in ss[i].client.issued && ss[i].client.issued[id] + LongestTimeout(limit) + limit <= ss[i].client.now
    ensures ClientProofs.IsAnsweredOnce(ss[i].client, id) || ClientProofs.IsDropped(ss[i].client, id)
  {
    AlwaysInv(ss, es, i);
    AlwaysPrompt(ss, es, i, limit);
    ClientProofs.NoHolders(ss[i].client, id);
    if C.Holders(ss[i].client, id) != {} {
      NotOverdue(ss[i], id, limit);
    }
  }

  /** A pending request's alarm has a functor in the queue, which is not due for longer than the lag. */
  lemma NotOverdue(s: System, id: C.RequestId, limit: nat)
    requires AlarmsInOrder(s) && AlarmsPrompt(s, limit) && CaughtUp(s)
    requires id in s.client.issued && C.Holders(s.client, id) != {}
    ensures s.client.now < s.client.issued[id] + LongestTimeout(limit) + limit
  {
    var w := s.alarms[id];
    assert w.alarm.queued.value in w.queue;
  }

  /** The client's part of one event is one event of the client's or two, or none. */
  lemma ClientRunsOn(s: System, e: Event, cs: seq<C.Client>, ces: seq<C.Event>)
    returns (cs': seq<C.Client>, ces': seq<C.Event>)
    requires Inv(s) && Enabled(s, e) && C.IsRun(cs, ces) && cs[|ces|] == s.client
    ensures C.IsRun(cs', ces') && cs'[|ces'|] == Step(s, e).client
  {
    cs', ces' := cs, ces;
    match e
    case Call(ce) => cs', ces' := OneMoreEvent(cs, ces, ce);
    case Request(receiver, app, wait, lag) =>
      cs', ces' := OneMoreEvent(cs, ces, C.Issue(receiver, app));
      if receiver in s.client.sockets {
        cs', ces' := OneMoreEvent(cs', ces', C.Tick(wait + lag));
      }
    case RunTask(id, f, lag) =>
      if Fired(s, id, f, lag).ran.Some? {
        TimeoutIsEnabled(s, id, f, lag);
        cs', ces' := OneMoreEvent(cs, ces, C.Timeout(id));
      } else {
        EarlyFiringKeepsAlarms(s, id, f, lag);
        cs', ces' := OneMoreEvent(cs, ces, C.Tick(Fired(s, id, f, lag).world.now - s.client.now));
      }
    case MoveTask(_, _) =>
  }

  /** The client's part of every run is a run of the client alone, so that all that holds of those holds here. */
  lemma {:induction false} ClientRuns(ss: seq<System>, es: seq<Event>, i: nat)
    returns (cs: seq<C.Client>, ces: seq<C.Event>)
    requires IsRun(ss, es) && i < |ss|
    ensures C.IsRun(cs, ces) && cs[|ces|] == ss[i].client
  {
    if i == 0 {
      cs, ces := [ss[0].client], [];
    } else {
      cs, ces := ClientRuns(ss, es, i - 1);
      AlwaysInv(ss, es, i - 1);
      cs, ces := ClientRunsOn(ss[i - 1], es[i - 1], cs, ces);
    }
  }

  lemma OneMoreEvent(cs: seq<C.Client>, ces: seq<C.Event>, e: C.Event) returns (cs': seq<C.Client>, ces': seq<C.Event>)
    requires C.IsRun(cs, ces) && C.Enabled(cs[|ces|], e)
    ensures C.IsRun(cs', ces') && cs'[|ces'|] == C.Step(cs[|ces|], e)
  {
    cs', ces' := cs + [C.Step(cs[|ces|], e)], ces + [e];
    forall k | 0 <= k < |ces'|
      ensures C.Enabled(cs'[k], ces'[k]) && cs'[k + 1] == C.Step(cs'[k], ces'[k])
    {
      if k < |ces| {
        assert C.Enabled(cs[k], ces[k]) && cs[k + 1] == C.Step(cs[k], ces[k]);
      }
    }
  }
}

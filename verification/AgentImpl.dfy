/** The receiver's application agent, with its fields updated in place. */
module AgentImpl {
  import opened Common
  import Spec = AgentSpec
  import AgentProofs

  /** The map with the first `n` ids entered. */
  ghost function Entered<K, V>(m: map<K, V>, ids: seq<K>, n: nat, v: V): map<K, V>
    requires n <= |ids|
  {
    m + (map id | id in ids[..n] :: v)
  }

  lemma EnterOne<K, V>(m: map<K, V>, ids: seq<K>, n: nat, v: V)
    requires n < |ids|
    ensures Entered(m, ids, n, v)[ids[n] := v] == Entered(m, ids, n + 1, v)
  {
    assert ids[..n + 1] == ids[..n] + [ids[n]];
  }

  lemma NotYetEntered<K, V>(m: map<K, V>, ids: seq<K>, n: nat, v: V)
    requires n < |ids| && ids[n] !in m
    requires forall i :: 0 <= i < n ==> ids[i] != ids[n]
    ensures ids[n] !in Entered(m, ids, n, v)
  {
  }

  class ApplicationAgent {
    var alive: bool
    var registered: map<Spec.AppId, Spec.App>
    var idle: Option<Spec.App>
    var launched: Option<Spec.App>
    var via: Spec.AppId
    var port: Option<Spec.SocketId>
    var log: seq<Spec.Action>

    ghost function State(): Spec.Agent
      reads this
    {
      Spec.Agent(alive, registered, idle, launched, via, port, log)
    }

    /** What every event keeps. */
    ghost predicate Valid()
      reads this
    {
      AgentProofs.Inv(State())
    }

    constructor ()
      ensures Valid() && State() == Spec.Initial()
    {
      alive := true;
      registered := map[];
      idle := None;
      launched := None;
      via := "";
      port := None;
      log := [];
    }

    method Destroy()
      requires Valid() && alive
      modifies this
      ensures Valid()
      ensures State() == Spec.Step(old(State()), Spec.Destroy)
    {
      AgentProofs.StepKeepsInv(State(), Spec.Destroy);
      idle := None;
      var _ := SwitchToApplication("", None, false, false);
      alive := false;
    }

    method RegisterApplication(app: Spec.App, autoLaunch: bool, succeeds: bool)
      requires Valid() && alive && Spec.CanRegister(State(), app, autoLaunch)
      modifies this
      ensures Valid()
      ensures State() == Spec.Register(old(State()), app, autoLaunch, succeeds)
    {
      AgentProofs.StepKeepsInv(State(), Spec.RegisterApp(app, autoLaunch, succeeds));
      InsertIds(app);
      if autoLaunch {
        assert idle.None?;
        idle := Some(app);
        if launched.None? {
          GoIdle(succeeds);
        }
      }
    }

    /** The loop of RegisterApplication, with its checks that every insertion is a new one. */
    method InsertIds(app: Spec.App)
      requires forall i :: 0 <= i < |app.appIds| ==> app.appIds[i] !in registered
      requires forall i, j :: 0 <= i < j < |app.appIds| ==> app.appIds[i] != app.appIds[j]
      modifies this`registered
      ensures registered == old(registered) + (map id | id in app.appIds :: app)
    {
      var i := 0;
      while i < |app.appIds|
        invariant 0 <= i <= |app.appIds|
        invariant registered == Entered(old(registered), app.appIds, i, app)
      {
        NotYetEntered(old(registered), app.appIds, i, app);
        EnterOne(old(registered), app.appIds, i, app);
        assert app.appIds[i] !in registered;
        registered := registered[app.appIds[i] := app];
        i := i + 1;
      }
      assert app.appIds[..i] == app.appIds;
    }

    method UnregisterApplication(app: Spec.App, succeeds: bool)
      requires Valid() && alive
      modifies this
      ensures Valid()
      ensures State() == Spec.Unregister(old(State()), app, succeeds)
    {
      EraseIds(app);
      if idle == Some(app) {
        idle := None;
      }
      if launched == Some(app) {
        GoIdle(succeeds);
      }
      AgentProofs.StepKeepsInv(old(State()), Spec.UnregisterApp(app, succeeds));
    }

    /** The loop of UnregisterApplication. */
    method EraseIds(app: Spec.App)
      modifies this`registered
      ensures registered == map id | id in old(registered) && old(registered)[id] != app :: old(registered)[id]
    {
      var rest := registered.Keys;
      while rest != {}
        invariant rest <= registered.Keys <= old(registered).Keys
        invariant forall id :: id in registered ==> registered[id] == old(registered)[id]
        invariant forall id :: id in old(registered) && id !in rest ==>
                    (id in registered <==> old(registered)[id] != app)
        decreases |rest|
      {
        var id :| id in rest;
        if registered[id] == app {
          registered := registered - {id};
        }
        rest := rest - {id};
      }
    }

    method StopApplicationIfRunning(app: Spec.App, succeeds: bool)
      requires Valid() && alive
      modifies this
      ensures Valid()
      ensures State() == Spec.Step(old(State()), Spec.StopIfRunning(app, succeeds))
    {
      AgentProofs.StepKeepsInv(State(), Spec.StopIfRunning(app, succeeds));
      if launched == Some(app) {
        GoIdle(succeeds);
      }
    }

    /** Both when a socket is closed and when it reports an error. */
    method OnClose(socket: Spec.SocketId, succeeds: bool)
      requires Valid() && alive
      modifies this
      ensures Valid()
      ensures State() == Spec.Step(old(State()), Spec.SocketClosed(socket, succeeds))
    {
      AgentProofs.StepKeepsInv(State(), Spec.SocketClosed(socket, succeeds));
      if port == Some(socket) {
        GoIdle(succeeds);
      }
    }

    method HandleLaunch(id: Spec.AppId, socket: Spec.SocketId, succeeds: bool, fallbackSucceeds: bool)
      returns (error: Spec.Error)
      requires Valid() && alive
      modifies this
      ensures Valid()
      ensures (State(), error) == Spec.HandleLaunch(old(State()), id, socket, succeeds, fallbackSucceeds)
    {
      AgentProofs.StepKeepsInv(State(), Spec.Launch(id, socket, succeeds, fallbackSucceeds));
      if id != "" {
        error := SwitchToApplication(id, Some(socket), succeeds, fallbackSucceeds);
      } else {
        error := Spec.ParameterInvalid;
      }
    }

    method HandleStop(session: Spec.Session, succeeds: bool)
      requires Valid() && alive
      modifies this
      ensures Valid()
      ensures State() == Spec.Step(old(State()), Spec.Stop(session, succeeds))
    {
      AgentProofs.StepKeepsInv(State(), Spec.Stop(session, succeeds));
      if session.NoSession? {
        GoIdle(succeeds);
        return;
      }
      if launched.Some? && session.OwnSession? {
        GoIdle(succeeds);
      }
    }

    method StopRunning()
      modifies this
      ensures State() == Spec.StopRunning(old(State()))
    {
      if launched.Some? {
        log := log + [Spec.Stopped(launched.value)];
        port := None;
        launched := None;
        via := "";
      }
    }

    method LaunchDesired(app: Spec.App, appId: Spec.AppId, socket: Option<Spec.SocketId>, succeeds: bool)
      modifies this
      ensures State() == Spec.LaunchDesired(old(State()), app, appId, socket, succeeds)
    {
      if socket.Some? {
        port := socket;
      }
      if succeeds {
        log := log + [Spec.Launched(app, appId)];
        launched := Some(app);
        via := appId;
      } else {
        log := log + [Spec.LaunchFailed(app, appId)];
        port := None;
      }
    }

    method LaunchFallback(app: Spec.App, succeeds: bool)
      modifies this
      ensures State() == Spec.LaunchFallback(old(State()), app, succeeds)
    {
      var id := Spec.FirstAppId(app);
      if succeeds {
        log := log + [Spec.Launched(app, id)];
        launched := Some(app);
        via := id;
      } else {
        log := log + [Spec.LaunchFailed(app, id)];
      }
    }

    method SwitchToApplication(appId: Spec.AppId, socket: Option<Spec.SocketId>, succeeds: bool, fallbackSucceeds: bool)
      returns (error: Spec.Error)
      modifies this
      ensures (State(), error) == Spec.SwitchTo(old(State()), appId, socket, succeeds, fallbackSucceeds)
    {
      error := Spec.NoError;
      var desired: Option<Spec.App> := None;
      var fallback: Option<Spec.App> := None;
      if appId != "" {
        if appId in registered {
          desired := Some(registered[appId]);
          if desired != idle {
            fallback := idle;
          }
        } else {
          return Spec.ItemNotFound;
        }
      }
      if launched == desired {
        return;
      }
      StopRunning();
      if desired.Some? {
        LaunchDesired(desired.value, appId, socket, succeeds);
        if !succeeds {
          error := Spec.UnknownError;
        }
      }
      if launched.None? && fallback.Some? {
        LaunchFallback(fallback.value, fallbackSucceeds);
      }
      BroadcastReceiverStatus();
    }

    method GoIdle(succeeds: bool)
      modifies this
      ensures State() == Spec.GoIdle(old(State()), succeeds)
    {
      var appId := "";
      if idle.Some? {
        appId := Spec.FirstAppId(idle.value);
      }
      var _ := SwitchToApplication(appId, None, succeeds, false);
    }

    method BroadcastReceiverStatus()
      modifies this
      ensures State() == Spec.BroadcastStatus(old(State()))
    {
      var status := Spec.NothingRuns;
      if launched.Some? {
        status := Spec.Runs(launched.value, via, launched == idle);
      }
      log := log + [Spec.Broadcast(status)];
    }
  }
}

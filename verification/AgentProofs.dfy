/** At most one application runs, and everybody is told the truth about it. */
module AgentProofs {
  import opened Common
  import opened AgentSpec

  // ----- an observer of the log, who knows nothing of the agent's state -----

  /** What runs according to the log; `Broken` if the log is not that of a well-behaved agent. */
  datatype View = Broken | Idle | Active(app: App, via: AppId)

  /**
   Nothing may be launched while something runs; only what runs may be stopped; and a
   broadcast names what runs.
   */
  ghost function Observe(v: View, a: Action): View {
    match a
    case Launched(app, via) => if v.Idle? then Active(app, via) else Broken
    case LaunchFailed(_, _) => if v.Idle? then Idle else Broken
    case Stopped(app) => if v.Active? && v.app == app then Idle else Broken
    case Broadcast(NothingRuns) => if v.Idle? then Idle else Broken
    case Broadcast(Runs(app, via, _)) => if v == Active(app, via) then v else Broken
  }

  ghost function Replay(log: seq<Action>): View {
    if log == [] then Idle else Observe(Replay(log[..|log| - 1]), log[|log| - 1])
  }

  ghost function LastBroadcast(log: seq<Action>): Status {
    if log == [] then NothingRuns
    else if log[|log| - 1].Broadcast? then log[|log| - 1].status
    else LastBroadcast(log[..|log| - 1])
  }

  /** How the latest attempt to launch an application ended. */
  datatype Attempt = NeverTried | Succeeded | Failed

  ghost function AfterAction(last: Attempt, a: Action, app: App): Attempt {
    match a
    case Launched(x, _) => if x == app then Succeeded else last
    case LaunchFailed(x, _) => if x == app then Failed else last
    case _ => last
  }

  ghost function LastAttempt(log: seq<Action>, app: App): Attempt {
    if log == [] then NeverTried
    else AfterAction(LastAttempt(log[..|log| - 1], app), log[|log| - 1], app)
  }

  lemma AppendAction(log: seq<Action>, a: Action)
    ensures Replay(log + [a]) == Observe(Replay(log), a)
    ensures a.Broadcast? ==> LastBroadcast(log + [a]) == a.status
    ensures !a.Broadcast? ==> LastBroadcast(log + [a]) == LastBroadcast(log)
    ensures forall app :: LastAttempt(log + [a], app) == AfterAction(LastAttempt(log, app), a, app)
  {
    assert (log + [a])[..|log|] == log;
  }

  // ----- the invariant -----

  ghost function ViewOf(s: Agent): View {
    if s.launched.None? then Idle else Active(s.launched.value, s.via)
  }

  /** Every id is one of its application's own, and the idle screen is registered. */
  ghost predicate RegistryInOrder(registered: map<AppId, App>, idle: Option<App>) {
    && "" !in registered
    && (forall id :: id in registered ==> id in registered[id].appIds)
    && (idle.Some? ==>
          && idle.value.appIds != []
          && forall i :: 0 <= i < |idle.value.appIds| ==>
               idle.value.appIds[i] in registered && registered[idle.value.appIds[i]] == idle.value)
  }

  /** What runs is registered under the id it was launched with, and without it no socket is attached. */
  ghost predicate LaunchedInOrder(s: Agent) {
    && (s.launched.Some? ==> s.via in s.registered && s.registered[s.via] == s.launched.value)
    && (s.port.Some? ==> s.launched.Some?)
  }

  ghost predicate Registered(s: Agent) {
    RegistryInOrder(s.registered, s.idle) && LaunchedInOrder(s)
  }

  /** If nothing runs although there is an idle screen, its latest launch has failed. */
  ghost predicate IdleTried(s: Agent) {
    s.idle.Some? && s.launched.None? ==> LastAttempt(s.log, s.idle.value) == Failed
  }

  ghost predicate Inv(s: Agent) {
    && Registered(s)
    && Replay(s.log) == ViewOf(s)
    && LastBroadcast(s.log) == StatusOf(s)
    && IdleTried(s)
  }

  // ----- one switch of applications, step by step -----

  lemma StopKeepsView(s: Agent)
    requires Replay(s.log) == ViewOf(s)
    ensures Replay(StopRunning(s).log) == Idle && StopRunning(s).launched.None?
    ensures forall app :: LastAttempt(StopRunning(s).log, app) == LastAttempt(s.log, app)
  {
    if s.launched.Some? {
      AppendAction(s.log, Stopped(s.launched.value));
    }
  }

  lemma LaunchKeepsView(s: Agent, app: App, id: AppId, socket: Option<SocketId>, succeeds: bool)
    requires Replay(s.log) == Idle && s.launched.None?
    ensures var s' := LaunchDesired(s, app, id, socket, succeeds);
            && Replay(s'.log) == ViewOf(s')
            && LastAttempt(s'.log, app) == (if succeeds then Succeeded else Failed)
  {
    AppendAction(s.log, if succeeds then Launched(app, id) else LaunchFailed(app, id));
  }

  lemma FallbackKeepsView(s: Agent, app: App, succeeds: bool)
    requires Replay(s.log) == Idle && s.launched.None?
    ensures var s' := LaunchFallback(s, app, succeeds);
            && Replay(s'.log) == ViewOf(s')
            && LastAttempt(s'.log, app) == (if succeeds then Succeeded else Failed)
  {
    var id := FirstAppId(app);
    AppendAction(s.log, if succeeds then Launched(app, id) else LaunchFailed(app, id));
  }

  lemma BroadcastKeepsView(s: Agent)
    requires Replay(s.log) == ViewOf(s)
    ensures var s' := BroadcastStatus(s);
            && Replay(s'.log) == ViewOf(s')
            && LastBroadcast(s'.log) == StatusOf(s')
            && forall app :: LastAttempt(s'.log, app) == LastAttempt(s.log, app)
  {
    AppendAction(s.log, Broadcast(StatusOf(s)));
  }

  /** What may be wrong just before a switch: the running application need not be registered any more. */
  ghost predicate Switchable(s: Agent) {
    && RegistryInOrder(s.registered, s.idle)
    && (s.port.Some? ==> s.launched.Some?)
    && Replay(s.log) == ViewOf(s)
  }

  /** Nothing runs, and nothing is attached. */
  ghost predicate IsStopped(s: Agent) {
    RegistryInOrder(s.registered, s.idle) && s.launched.None? && s.port.None? && Replay(s.log) == Idle
  }

  /** All is in order but the broadcast. */
  ghost predicate Unannounced(s: Agent) {
    Registered(s) && Replay(s.log) == ViewOf(s) && IdleTried(s)
  }

  lemma StopEndsStopped(s: Agent)
    requires Switchable(s)
    ensures IsStopped(StopRunning(s))
    ensures StopRunning(s).registered == s.registered && StopRunning(s).idle == s.idle
  {
    StopKeepsView(s);
  }

  lemma BroadcastEndsWell(s: Agent)
    requires Unannounced(s)
    ensures Inv(BroadcastStatus(s))
  {
    BroadcastKeepsView(s);
  }

  /** Launching what was asked for is all, if it succeeds or there is no other application to fall back to. */
  lemma LaunchIsAll(s: Agent, id: AppId, socket: Option<SocketId>, succeeds: bool)
    requires IsStopped(s) && id in s.registered
    requires succeeds || s.idle.None? || s.idle == Some(s.registered[id])
    ensures Unannounced(LaunchDesired(s, s.registered[id], id, socket, succeeds))
  {
    LaunchKeepsView(s, s.registered[id], id, socket, succeeds);
  }

  lemma FailureEndsStopped(s: Agent, id: AppId, socket: Option<SocketId>)
    requires IsStopped(s) && id in s.registered
    ensures var s' := LaunchDesired(s, s.registered[id], id, socket, false);
            IsStopped(s') && s'.registered == s.registered && s'.idle == s.idle
  {
    LaunchKeepsView(s, s.registered[id], id, socket, false);
  }

  lemma FallbackIsAll(s: Agent, app: App, succeeds: bool)
    requires IsStopped(s) && s.idle == Some(app)
    ensures Unannounced(LaunchFallback(s, app, succeeds))
  {
    FallbackKeepsView(s, app, succeeds);
    assert FirstAppId(app) == app.appIds[0];
  }

  ghost predicate CanSwitch(s: Agent, id: AppId) {
    && (id == "" || id in s.registered)
    && (id == "" ==> s.idle.None?)
    && s.launched != DesiredApp(s, id)
  }

  lemma ReplaceEndsUnannounced(s: Agent, id: AppId, socket: Option<SocketId>, succeeds: bool, fallbackSucceeds: bool)
    requires Switchable(s) && CanSwitch(s, id)
    ensures Unannounced(Replace(s, id, socket, succeeds, fallbackSucceeds))
  {
    var s1 := StopRunning(s);
    StopEndsStopped(s);
    if id != "" {
      if succeeds || s.idle.None? || s.idle == Some(s.registered[id]) {
        LaunchIsAll(s1, id, socket, succeeds);
      } else {
        FailureEndsStopped(s1, id, socket);
        FallbackIsAll(LaunchDesired(s1, s.registered[id], id, socket, false), s.idle.value, fallbackSucceeds);
      }
    }
  }

  /** A switch that does something ends well. */
  lemma SwitchEndsWell(s: Agent, id: AppId, socket: Option<SocketId>, succeeds: bool, fallbackSucceeds: bool)
    requires Switchable(s) && CanSwitch(s, id)
    ensures Inv(SwitchTo(s, id, socket, succeeds, fallbackSucceeds).0)
  {
    ReplaceEndsUnannounced(s, id, socket, succeeds, fallbackSucceeds);
    BroadcastEndsWell(Replace(s, id, socket, succeeds, fallbackSucceeds));
  }

  lemma GoIdleKeepsInv(s: Agent, succeeds: bool)
    requires Inv(s)
    ensures Inv(GoIdle(s, succeeds))
  {
    if s.launched != s.idle {
      SwitchEndsWell(s, if s.idle.Some? then FirstAppId(s.idle.value) else "", None, succeeds, false);
    }
  }

  /** The registry with the application's ids added. */
  lemma RegistryGrows(s: Agent, app: App, autoLaunch: bool)
    requires RegistryInOrder(s.registered, s.idle) && CanRegister(s, app, autoLaunch)
    ensures var registered := s.registered + (map id | id in app.appIds :: app);
            && RegistryInOrder(registered, s.idle)
            && (autoLaunch ==> RegistryInOrder(registered, Some(app)))
            && (forall id :: id in s.registered ==> registered[id] == s.registered[id])
            && forall id :: id in s.registered ==> s.registered[id] != app
  {
    forall id | id in s.registered
      ensures s.registered[id] != app
    {
      assert id in s.registered[id].appIds;
    }
  }

  lemma RegisterKeepsInv(s: Agent, app: App, autoLaunch: bool, succeeds: bool)
    requires Inv(s) && CanRegister(s, app, autoLaunch)
    ensures Inv(Register(s, app, autoLaunch, succeeds))
  {
    RegistryGrows(s, app, autoLaunch);
    var registered := s.registered + (map id | id in app.appIds :: app);
    if autoLaunch {
      var s2 := s.(registered := registered, idle := Some(app));
      if s.launched.None? {
        SwitchEndsWell(s2, FirstAppId(app), None, succeeds, false);
      } else {
        assert StatusOf(s2) == StatusOf(s);
      }
    } else {
      assert StatusOf(s.(registered := registered)) == StatusOf(s);
    }
  }

  lemma UnregisterKeepsInv(s: Agent, app: App, succeeds: bool)
    requires Inv(s)
    ensures Inv(Unregister(s, app, succeeds))
  {
    var s1 := s.(registered := map id | id in s.registered && s.registered[id] != app :: s.registered[id],
                 idle := if s.idle == Some(app) then None else s.idle);
    if s.launched == Some(app) {
      SwitchEndsWell(s1, if s1.idle.Some? then FirstAppId(s1.idle.value) else "", None, succeeds, false);
    } else {
      assert StatusOf(s1) == StatusOf(s);
    }
  }

  lemma LaunchKeepsInv(s: Agent, id: AppId, socket: SocketId, succeeds: bool, fallbackSucceeds: bool)
    requires Inv(s)
    ensures Inv(HandleLaunch(s, id, socket, succeeds, fallbackSucceeds).0)
  {
    if id in s.registered && s.launched != Some(s.registered[id]) {
      SwitchEndsWell(s, id, Some(socket), succeeds, fallbackSucceeds);
    }
  }

  lemma DestroyKeepsInv(s: Agent)
    requires Inv(s)
    ensures Inv(Step(s, Destroy)) && Step(s, Destroy).launched.None?
  {
    var s1 := s.(idle := None);
    if s.launched.Some? {
      SwitchEndsWell(s1, "", None, false, false);
      var s2 := SwitchTo(s1, "", None, false, false).0;
      assert Inv(s2) && ViewOf(s2.(alive := false)) == ViewOf(s2);
    }
  }

  lemma StepKeepsInv(s: Agent, e: Event)
    requires Inv(s) && Enabled(s, e)
    ensures Inv(Step(s, e))
  {
    match e
    case RegisterApp(app, autoLaunch, succeeds) => RegisterKeepsInv(s, app, autoLaunch, succeeds);
    case UnregisterApp(app, succeeds) => UnregisterKeepsInv(s, app, succeeds);
    case StopIfRunning(_, succeeds) => GoIdleKeepsInv(s, succeeds);
    case Launch(id, socket, succeeds, fallbackSucceeds) => LaunchKeepsInv(s, id, socket, succeeds, fallbackSucceeds);
    case Stop(_, succeeds) => GoIdleKeepsInv(s, succeeds);
    case SocketClosed(_, succeeds) => GoIdleKeepsInv(s, succeeds);
    case SocketExpired => assert StatusOf(s.(port := None)) == StatusOf(s);
    case Destroy => DestroyKeepsInv(s);
  }

  lemma {:induction false} AlwaysInv(ss: seq<Agent>, es: seq<Event>, i: nat)
    requires IsRun(ss, es) && i < |ss|
    ensures Inv(ss[i])
    decreases i
  {
    if i > 0 {
      AlwaysInv(ss, es, i - 1);
      StepKeepsInv(ss[i - 1], es[i - 1]);
    }
  }

  // ----- what follows for whole runs -----

  ghost function Launches(log: seq<Action>, app: App): nat {
    if log == [] then 0
    else Launches(log[..|log| - 1], app) + (if log[|log| - 1].Launched? && log[|log| - 1].app == app then 1 else 0)
  }

  ghost function Stops(log: seq<Action>, app: App): nat {
    if log == [] then 0
    else Stops(log[..|log| - 1], app) + (if log[|log| - 1] == Stopped(app) then 1 else 0)
  }

  /** In a log that is in order every launch is matched by a stop, except that of what still runs. */
  lemma {:induction false} LaunchesMatchStops(log: seq<Action>, app: App)
    requires !Replay(log).Broken?
    ensures Launches(log, app) == Stops(log, app) + (if Replay(log).Active? && Replay(log).app == app then 1 else 0)
  {
    if log != [] {
      LaunchesMatchStops(log[..|log| - 1], app);
    }
  }

  /** At all times: at most one application runs, it is the one the agent thinks, and all are told. */
  lemma OneAppAtATime(ss: seq<Agent>, es: seq<Event>, i: nat, app: App)
    requires IsRun(ss, es) && i < |ss|
    ensures !Replay(ss[i].log).Broken?
    ensures Launches(ss[i].log, app) == Stops(ss[i].log, app) + (if ss[i].launched == Some(app) then 1 else 0)
    ensures LastBroadcast(ss[i].log) == if ss[i].launched.None? then NothingRuns
                                        else Runs(ss[i].launched.value, ss[i].via, ss[i].launched == ss[i].idle)
    ensures ss[i].launched.Some? ==>
              ss[i].via in ss[i].registered && ss[i].registered[ss[i].via] == ss[i].launched.value
  {
    AlwaysInv(ss, es, i);
    LaunchesMatchStops(ss[i].log, app);
  }

  /** The screen is blank although an idle screen is registered only if its launch has just failed. */
  lemma IdleScreenShownIfPossible(ss: seq<Agent>, es: seq<Event>, i: nat)
    requires IsRun(ss, es) && i < |ss| && ss[i].idle.Some? && ss[i].launched.None?
    ensures LastAttempt(ss[i].log, ss[i].idle.value) == Failed
  {
    AlwaysInv(ss, es, i);
  }

  /** Once the agent is gone every application it launched has been stopped as often. */
  lemma AllStoppedInTheEnd(ss: seq<Agent>, es: seq<Event>, i: nat, app: App)
    requires IsRun(ss, es) && i < |es| && es[i].Destroy?
    ensures i + 1 == |es| && Launches(ss[i + 1].log, app) == Stops(ss[i + 1].log, app)
  {
    AlwaysInv(ss, es, i);
    DestroyKeepsInv(ss[i]);
    OneAppAtATime(ss, es, i + 1, app);
    assert !ss[i + 1].alive;
  }

  /** GoIdle leaves the idle screen or nothing, and the idle screen unless it cannot be launched. */
  lemma GoIdleStopsTheRest(s: Agent, succeeds: bool)
    requires Inv(s)
    ensures var s' := GoIdle(s, succeeds);
            && s'.idle == s.idle
            && s'.launched == (if s.launched == s.idle || succeeds then s.idle else None)
            && (s'.port.Some? ==> s' == s)
  {
    if s.idle.Some? {
      assert FirstAppId(s.idle.value) in s.registered;
    }
  }

  /**
   LAUNCH succeeds exactly if the application is known and runs already or can be launched; if
   it fails, nothing changed or the idle screen (or nothing) has replaced what ran.
   */
  lemma LaunchOutcome(s: Agent, id: AppId, socket: SocketId, succeeds: bool, fallbackSucceeds: bool)
    requires Inv(s)
    ensures var (s', error) := HandleLaunch(s, id, socket, succeeds, fallbackSucceeds);
            && (error == NoError <==> id in s.registered && (s.launched == Some(s.registered[id]) || succeeds))
            && (error == NoError ==> s'.launched == Some(s.registered[id]))
            && (error == NoError && s.launched != s'.launched ==> s'.via == id && s'.port == Some(socket))
            && (error == NoError && s.launched == s'.launched ==> s' == s)
            && (error == ItemNotFound || error == ParameterInvalid ==> s' == s)
            && (error == UnknownError ==>
                  && s'.port.None?
                  && s'.launched == (if s.idle.Some? && s.idle != Some(s.registered[id]) && fallbackSucceeds
                                     then s.idle else None))
  {
    assert "" !in s.registered;
  }

  /** The event is a successful LAUNCH that made the agent's application run for that socket. */
  ghost predicate Attaches(e: Event, s: Agent) {
    e.Launch? && e.succeeds && s.via == e.id && s.port == Some(e.socket)
  }

  /** A switch for which no socket is given attaches none. */
  lemma GoIdleAttachesNone(s: Agent, succeeds: bool)
    requires s.port.Some? ==> s.launched.Some?
    ensures GoIdle(s, succeeds).port.Some? ==> GoIdle(s, succeeds) == s
  {
  }

  lemma RegistryAttachesNone(s: Agent, e: Event)
    requires Inv(s) && (e.RegisterApp? || e.UnregisterApp?) && Step(s, e).port.Some?
    ensures var s' := Step(s, e); s'.port == s.port && s'.launched == s.launched && s'.via == s.via
  {
    match e
    case RegisterApp(app, autoLaunch, succeeds) =>
      if autoLaunch && s.launched.None? {
        GoIdleAttachesNone(s.(registered := s.registered + (map id | id in app.appIds :: app), idle := Some(app)), succeeds);
      }
    case UnregisterApp(app, succeeds) =>
      if s.launched == Some(app) {
        GoIdleAttachesNone(
          s.(registered := map id | id in s.registered && s.registered[id] != app :: s.registered[id],
             idle := if s.idle == Some(app) then None else s.idle), succeeds);
      }
  }

  /** A socket is attached by a successful LAUNCH, and a detached one is not attached otherwise. */
  lemma StepAttaches(s: Agent, e: Event)
    requires Inv(s) && Enabled(s, e) && Step(s, e).port.Some?
    ensures var s' := Step(s, e);
            Attaches(e, s') || (s'.port == s.port && s'.launched == s.launched && s'.via == s.via)
  {
    match e
    case RegisterApp(_, _, _) => RegistryAttachesNone(s, e);
    case UnregisterApp(_, _) => RegistryAttachesNone(s, e);
    case StopIfRunning(_, succeeds) => GoIdleAttachesNone(s, succeeds);
    case Stop(_, succeeds) => GoIdleAttachesNone(s, succeeds);
    case SocketClosed(_, succeeds) => GoIdleAttachesNone(s, succeeds);
    case Launch(id, socket, succeeds, fallbackSucceeds) => LaunchOutcome(s, id, socket, succeeds, fallbackSucceeds);
    case SocketExpired =>
    case Destroy =>
  }

  ghost predicate SameSession(ss: seq<Agent>, j: int, i: int) {
    0 <= j <= i < |ss| && forall k :: j <= k <= i ==>
      ss[k].port == ss[i].port && ss[k].launched == ss[i].launched && ss[k].via == ss[i].via
  }

  lemma SessionGoesOn(ss: seq<Agent>, j: int, i: int)
    requires 0 <= j < i < |ss| && SameSession(ss, j, i - 1)
    requires ss[i].port == ss[i - 1].port && ss[i].launched == ss[i - 1].launched && ss[i].via == ss[i - 1].via
    ensures SameSession(ss, j, i)
  {
    forall k | j <= k <= i
      ensures ss[k].port == ss[i].port && ss[k].launched == ss[i].launched && ss[k].via == ss[i].via
    {
      assert k < i ==> ss[k].port == ss[i - 1].port;
    }
  }

  /** Whoever's socket is attached launched what runs, and it has run ever since. */
  lemma {:induction false} PortBelongsToLauncher(ss: seq<Agent>, es: seq<Event>, i: nat) returns (j: nat)
    requires IsRun(ss, es) && i < |ss| && ss[i].port.Some?
    ensures j < i && SameSession(ss, j + 1, i) && Attaches(es[j], ss[i])
    decreases i
  {
    AlwaysInv(ss, es, i - 1);
    StepAttaches(ss[i - 1], es[i - 1]);
    if Attaches(es[i - 1], ss[i]) {
      j := i - 1;
    } else {
      j := PortBelongsToLauncher(ss, es, i - 1);
      SessionGoesOn(ss, j + 1, i);
    }
  }

  /** When its launcher's socket closes, an application other than the idle screen is stopped. */
  lemma ClosingEndsTheSession(ss: seq<Agent>, es: seq<Event>, i: nat)
    requires IsRun(ss, es) && i < |es| && es[i].SocketClosed? && ss[i].port == Some(es[i].socket)
    ensures ss[i].launched.Some?
    ensures ss[i + 1].launched.Some? ==> ss[i + 1].launched == ss[i + 1].idle
    ensures ss[i].launched != ss[i].idle ==>
              && ss[i + 1].port.None?
              && Stops(ss[i + 1].log, ss[i].launched.value) > Stops(ss[i].log, ss[i].launched.value)
  {
    AlwaysInv(ss, es, i);
    GoIdleStopsTheRest(ss[i], es[i].succeeds);
    if ss[i].launched != ss[i].idle {
      var app := ss[i].launched.value;
      OneAppAtATime(ss, es, i, app);
      OneAppAtATime(ss, es, i + 1, app);
      LaunchesGrow(ss[i], es[i].succeeds, app);
    }
  }

  lemma GoIdleOnlyAppends(s: Agent, succeeds: bool)
    ensures s.log <= GoIdle(s, succeeds).log
  {
  }

  lemma LaunchesGrow(s: Agent, succeeds: bool, app: App)
    ensures Launches(GoIdle(s, succeeds).log, app) >= Launches(s.log, app)
  {
    var log := GoIdle(s, succeeds).log;
    GoIdleOnlyAppends(s, succeeds);
    LaunchesMonotone(s.log, log, app);
  }

  lemma {:induction false} LaunchesMonotone(a: seq<Action>, b: seq<Action>, app: App)
    requires a <= b
    ensures Launches(a, app) <= Launches(b, app)
  {
    if a != b {
      LaunchesMonotone(a, b[..|b| - 1], app);
    }
  }
}

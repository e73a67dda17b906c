/** Which commands the agent obeys, told from the commands themselves. */
module AgentCommands {
  import opened Common
  import opened AgentSpec
  import opened AgentProofs

  // ----- the registry -----

  /** The application registered under an id after the events. */
  ghost function AppFor(es: seq<Event>, id: AppId): Option<App> {
    if es == [] then None
    else
      var before := AppFor(es[..|es| - 1], id);
      match es[|es| - 1]
      case RegisterApp(app, _, _) => if id in app.appIds then Some(app) else before
      case UnregisterApp(app, _) => if before == Some(app) then None else before
      case _ => before
  }

  /** The idle screen after the events. */
  ghost function IdleAfter(es: seq<Event>): Option<App> {
    if es == [] then None
    else
      var before := IdleAfter(es[..|es| - 1]);
      match es[|es| - 1]
      case RegisterApp(app, autoLaunch, _) => if autoLaunch then Some(app) else before
      case UnregisterApp(app, _) => if before == Some(app) then None else before
      case Destroy => None
      case _ => before
  }

  lemma ReplaceKeepsRegistry(s: Agent, id: AppId, socket: Option<SocketId>, succeeds: bool, fallbackSucceeds: bool)
    requires id == "" || id in s.registered
    ensures var s' := Replace(s, id, socket, succeeds, fallbackSucceeds); s'.registered == s.registered && s'.idle == s.idle
  {
  }

  lemma SwitchKeepsRegistry(s: Agent, id: AppId, socket: Option<SocketId>, succeeds: bool, fallbackSucceeds: bool)
    ensures var s' := SwitchTo(s, id, socket, succeeds, fallbackSucceeds).0; s'.registered == s.registered && s'.idle == s.idle
  {
    if id == "" || id in s.registered {
      ReplaceKeepsRegistry(s, id, socket, succeeds, fallbackSucceeds);
    }
  }

  lemma GoIdleKeepsRegistry(s: Agent, succeeds: bool)
    ensures GoIdle(s, succeeds).registered == s.registered && GoIdle(s, succeeds).idle == s.idle
  {
    SwitchKeepsRegistry(s, if s.idle.Some? then FirstAppId(s.idle.value) else "", None, succeeds, false);
  }

  /** The two events that change the registry. */
  lemma RegistryChanges(s: Agent, app: App, autoLaunch: bool, succeeds: bool)
    ensures Register(s, app, autoLaunch, succeeds).registered == s.registered + (map id | id in app.appIds :: app)
    ensures Register(s, app, autoLaunch, succeeds).idle == if autoLaunch then Some(app) else s.idle
    ensures Unregister(s, app, succeeds).registered
            == map id | id in s.registered && s.registered[id] != app :: s.registered[id]
    ensures Unregister(s, app, succeeds).idle == if s.idle == Some(app) then None else s.idle
  {
    GoIdleKeepsRegistry(s.(registered := s.registered + (map id | id in app.appIds :: app), idle := Some(app)), succeeds);
    GoIdleKeepsRegistry(s.(registered := map id | id in s.registered && s.registered[id] != app :: s.registered[id],
                           idle := if s.idle == Some(app) then None else s.idle), succeeds);
  }

  lemma RegistryKept(s: Agent, e: Event)
    requires Enabled(s, e) && !e.RegisterApp? && !e.UnregisterApp?
    ensures Step(s, e).registered == s.registered && Step(s, e).idle == if e.Destroy? then None else s.idle
  {
    match e
    case StopIfRunning(_, succeeds) => GoIdleKeepsRegistry(s, succeeds);
    case Stop(_, succeeds) => GoIdleKeepsRegistry(s, succeeds);
    case SocketClosed(_, succeeds) => GoIdleKeepsRegistry(s, succeeds);
    case Launch(id, socket, succeeds, fallbackSucceeds) => SwitchKeepsRegistry(s, id, Some(socket), succeeds, fallbackSucceeds);
    case Destroy => SwitchKeepsRegistry(s.(idle := None), "", None, false, false);
    case SocketExpired =>
  }

  /** In every run the registry and the idle screen are those of the events. */
  lemma {:induction false} RegistryFollowsEvents(ss: seq<Agent>, es: seq<Event>, i: nat, id: AppId)
    requires IsRun(ss, es) && i < |ss|
    ensures (id in ss[i].registered <==> AppFor(es[..i], id).Some?)
    ensures id in ss[i].registered ==> AppFor(es[..i], id) == Some(ss[i].registered[id])
    ensures ss[i].idle == IdleAfter(es[..i])
  {
    if i > 0 {
      RegistryFollowsEvents(ss, es, i - 1, id);
      match es[i - 1] {
        case RegisterApp(app, autoLaunch, succeeds) => RegistryChanges(ss[i - 1], app, autoLaunch, succeeds);
        case UnregisterApp(app, succeeds) => RegistryChanges(ss[i - 1], app, false, succeeds);
        case _ => RegistryKept(ss[i - 1], es[i - 1]);
      }
      assert es[..i][..i - 1] == es[..i - 1] && es[..i][i - 1] == es[i - 1];
    }
  }

  // ----- going idle -----

  /** What the applications and the audience see when the agent goes idle from something else. */
  ghost function Farewell(s: Agent, succeeds: bool): seq<Action> {
    (if s.launched.Some? then [Stopped(s.launched.value)] else [])
    + (if s.idle.None? then [Broadcast(NothingRuns)]
       else
         var app, id := s.idle.value, FirstAppId(s.idle.value);
         if succeeds then [Launched(app, id), Broadcast(Runs(app, id, true))]
         else [LaunchFailed(app, id), Broadcast(NothingRuns)])
  }

  /** The idle screen, or nothing if there is none or it cannot be launched, has replaced what ran. */
  ghost predicate WentIdle(s: Agent, s': Agent, succeeds: bool) {
    if s.launched == s.idle then s' == s
    else
      && s'.launched == (if succeeds then s.idle else None)
      && s'.port.None?
      && (s'.launched.Some? ==> s'.launched.value.appIds != [] && s'.via == s'.launched.value.appIds[0])
      && s'.log == s.log + Farewell(s, succeeds)
  }

  lemma GoIdleGoesIdle(s: Agent, succeeds: bool)
    requires RegistryInOrder(s.registered, s.idle) && (s.port.Some? ==> s.launched.Some?)
    ensures WentIdle(s, GoIdle(s, succeeds), succeeds)
  {
    if s.idle.Some? {
      var id := FirstAppId(s.idle.value);
      assert id == s.idle.value.appIds[0] && id in s.registered && s.registered[id] == s.idle.value;
    }
  }

  // ----- commands -----

  /** The command tells what runs now to end. */
  ghost predicate Obeys(s: Agent, e: Event) {
    match e
    case Stop(session, _) => session == NoSession || (session == OwnSession && s.launched.Some?)
    case StopIfRunning(app, _) => s.launched == Some(app)
    case SocketClosed(socket, _) => s.port == Some(socket)
    case _ => false
  }

  ghost predicate IsStopCommand(e: Event) {
    e.Stop? || e.StopIfRunning? || e.SocketClosed?
  }

  /**
   In every run: a STOP for another session, a stop of an application that does not run, and the
   closing of a socket that is not attached change nothing; a STOP for the running session or
   for any, a stop of what runs and the closing of its socket make the agent go idle.
   */
  lemma CommandsAreObeyed(ss: seq<Agent>, es: seq<Event>, i: nat)
    requires IsRun(ss, es) && i < |es| && IsStopCommand(es[i])
    ensures Obeys(ss[i], es[i]) ==> WentIdle(ss[i], ss[i + 1], es[i].succeeds)
    ensures !Obeys(ss[i], es[i]) ==> ss[i + 1] == ss[i]
  {
    AlwaysInv(ss, es, i);
    GoIdleGoesIdle(ss[i], es[i].succeeds);
  }

  /** STOP by session, spelt out. */
  lemma StopObeysItsSession(ss: seq<Agent>, es: seq<Event>, i: nat)
    requires IsRun(ss, es) && i < |es| && es[i].Stop?
    ensures es[i].session.OtherSession? ==> ss[i + 1] == ss[i]
    ensures !es[i].session.OtherSession? && ss[i].launched.Some? ==>
              && (ss[i + 1].launched.Some? ==> ss[i + 1].launched == ss[i].idle)
              && (ss[i].launched != ss[i].idle ==>
                    ss[i].log + [Stopped(ss[i].launched.value)] <= ss[i + 1].log)
  {
    CommandsAreObeyed(ss, es, i);
  }

  /** Registering and unregistering change what runs only for the idle screen, or for what runs itself. */
  lemma RegistryCommands(ss: seq<Agent>, es: seq<Event>, i: nat)
    requires IsRun(ss, es) && i < |es| && (es[i].RegisterApp? || es[i].UnregisterApp?)
    ensures var s, s', e := ss[i], ss[i + 1], es[i];
            var concerned := if e.RegisterApp? then e.autoLaunch && s.launched.None? else s.launched == Some(e.app);
            if concerned
            then WentIdle(s.(registered := s'.registered, idle := s'.idle), s', e.succeeds)
            else s'.launched == s.launched && s'.via == s.via && s'.port == s.port && s'.log == s.log
  {
    AlwaysInv(ss, es, i);
    AlwaysInv(ss, es, i + 1);
    match es[i]
    case RegisterApp(app, autoLaunch, succeeds) => RegisterOutcome(ss[i], app, autoLaunch, succeeds);
    case UnregisterApp(app, succeeds) => UnregisterOutcome(ss[i], app, succeeds);
  }

  lemma RegisterOutcome(s: Agent, app: App, autoLaunch: bool, succeeds: bool)
    requires Inv(s) && CanRegister(s, app, autoLaunch)
    ensures var s' := Register(s, app, autoLaunch, succeeds);
            if autoLaunch && s.launched.None?
            then WentIdle(s.(registered := s'.registered, idle := s'.idle), s', succeeds)
            else s'.launched == s.launched && s'.via == s.via && s'.port == s.port && s'.log == s.log
  {
    RegistryGrows(s, app, autoLaunch);
    var s2 := s.(registered := s.registered + (map id | id in app.appIds :: app), idle := Some(app));
    if autoLaunch && s.launched.None? {
      GoIdleGoesIdle(s2, succeeds);
      GoIdleKeepsRegistry(s2, succeeds);
    }
  }

  lemma UnregisterOutcome(s: Agent, app: App, succeeds: bool)
    requires Inv(s)
    ensures var s' := Unregister(s, app, succeeds);
            if s.launched == Some(app)
            then WentIdle(s.(registered := s'.registered, idle := s'.idle), s', succeeds)
            else s'.launched == s.launched && s'.via == s.via && s'.port == s.port && s'.log == s.log
  {
    var s1 := s.(registered := map id | id in s.registered && s.registered[id] != app :: s.registered[id],
                 idle := if s.idle == Some(app) then None else s.idle);
    if s.launched == Some(app) {
      GoIdleGoesIdle(s1, succeeds);
      GoIdleKeepsRegistry(s1, succeeds);
    }
  }

  // ----- LAUNCH -----

  /** In every run what a LAUNCH does follows from the applications registered by the events before. */
  lemma LaunchesWhatIsAskedFor(ss: seq<Agent>, es: seq<Event>, i: nat)
    requires IsRun(ss, es) && i < |es| && es[i].Launch?
    ensures var s, s', e := ss[i], ss[i + 1], es[i];
            match AppFor(es[..i], e.id)
            case None => s' == s
            case Some(app) =>
              if s.launched == Some(app) then s' == s
              else if e.succeeds then
                && s'.launched == Some(app) && s'.via == e.id && s'.port == Some(e.socket)
                && s'.log == s.log + (if s.launched.Some? then [Stopped(s.launched.value)] else [])
                             + [Launched(app, e.id), Broadcast(Runs(app, e.id, Some(app) == s.idle))]
              else
                && s'.port.None?
                && s'.launched == (if s.idle.Some? && s.idle != Some(app) && e.fallbackSucceeds then s.idle else None)
                && (s'.launched.Some? ==> s'.via == FirstAppId(s'.launched.value))
  {
    AlwaysInv(ss, es, i);
    RegistryFollowsEvents(ss, es, i, es[i].id);
    LaunchOutcome(ss[i], es[i].id, es[i].socket, es[i].succeeds, es[i].fallbackSucceeds);
    LaunchLog(ss[i], es[i].id, es[i].socket, es[i].fallbackSucceeds);
    FallbackVia(ss[i], es[i].id, es[i].socket, es[i].fallbackSucceeds);
  }

  lemma LaunchLog(s: Agent, id: AppId, socket: SocketId, fallbackSucceeds: bool)
    requires Inv(s)
    ensures id in s.registered && s.launched != Some(s.registered[id]) ==>
              HandleLaunch(s, id, socket, true, fallbackSucceeds).0.log
              == s.log + (if s.launched.Some? then [Stopped(s.launched.value)] else [])
                 + [Launched(s.registered[id], id), Broadcast(Runs(s.registered[id], id, Some(s.registered[id]) == s.idle))]
  {
    assert "" !in s.registered;
  }

  lemma FallbackVia(s: Agent, id: AppId, socket: SocketId, fallbackSucceeds: bool)
    requires Inv(s)
    ensures var s' := HandleLaunch(s, id, socket, false, fallbackSucceeds).0;
            s' != s && s'.launched.Some? ==> s'.via == FirstAppId(s'.launched.value)
  {
  }

  // ----- the attached socket -----

  lemma GoIdlePort(s: Agent, succeeds: bool)
    requires s.port.Some? ==> s.launched.Some?
    ensures var s' := GoIdle(s, succeeds); s'.port == if s'.log == s.log then s.port else None
  {
  }

  lemma LaunchPort(s: Agent, id: AppId, socket: SocketId, succeeds: bool, fallbackSucceeds: bool)
    requires Inv(s)
    ensures var s' := HandleLaunch(s, id, socket, succeeds, fallbackSucceeds).0;
            s'.port == if s'.log == s.log then s.port else if succeeds then Some(socket) else None
  {
    LaunchOutcome(s, id, socket, succeeds, fallbackSucceeds);
  }

  lemma RegistryPort(s: Agent, app: App, autoLaunch: bool, succeeds: bool)
    requires s.port.Some? ==> s.launched.Some?
    ensures var s' := Register(s, app, autoLaunch, succeeds); s'.port == if s'.log == s.log then s.port else None
    ensures var s' := Unregister(s, app, succeeds); s'.port == if s'.log == s.log then s.port else None
  {
    GoIdlePort(s.(registered := s.registered + (map id | id in app.appIds :: app), idle := Some(app)), succeeds);
    GoIdlePort(s.(registered := map id | id in s.registered && s.registered[id] != app :: s.registered[id],
                  idle := if s.idle == Some(app) then None else s.idle), succeeds);
  }

  /** A socket is detached when it expires and when anything is stopped or launched but by its own LAUNCH. */
  lemma PortAfter(s: Agent, e: Event)
    requires Inv(s) && Enabled(s, e)
    ensures var s' := Step(s, e);
            s'.port ==
              if e.SocketExpired? then None
              else if s'.log == s.log then s.port
              else if e.Launch? && e.succeeds then Some(e.socket)
              else None
  {
    match e
    case RegisterApp(app, autoLaunch, succeeds) => RegistryPort(s, app, autoLaunch, succeeds);
    case UnregisterApp(app, succeeds) => RegistryPort(s, app, false, succeeds);
    case StopIfRunning(_, succeeds) => GoIdlePort(s, succeeds);
    case Stop(_, succeeds) => GoIdlePort(s, succeeds);
    case SocketClosed(_, succeeds) => GoIdlePort(s, succeeds);
    case Launch(id, socket, succeeds, fallbackSucceeds) => LaunchPort(s, id, socket, succeeds, fallbackSucceeds);
    case SocketExpired =>
    case Destroy => GoIdlePort(s.(idle := None), false);
  }

  /** Event `j` launches something for the socket, and since then nothing was launched or stopped, and no socket expired. */
  ghost predicate AttachedBy(ss: seq<Agent>, es: seq<Event>, j: nat, i: nat, socket: SocketId)
    requires i <= |es| < |ss|
  {
    && j < i && es[j].Launch? && es[j].succeeds && es[j].socket == socket && ss[j + 1].log != ss[j].log
    && forall m :: j < m < i ==> !es[m].SocketExpired? && ss[m + 1].log == ss[m].log
  }

  ghost predicate RunsFor(ss: seq<Agent>, es: seq<Event>, i: nat, socket: SocketId)
    requires i <= |es| < |ss|
  {
    exists j: nat :: AttachedBy(ss, es, j, i, socket)
  }

  /** In every run a socket is attached exactly if what runs was launched for it, and it has not expired since. */
  lemma {:induction false} AttachedIffLaunchedFor(ss: seq<Agent>, es: seq<Event>, i: nat, socket: SocketId)
    requires IsRun(ss, es) && i < |ss|
    ensures ss[i].port == Some(socket) <==> RunsFor(ss, es, i, socket)
  {
    if i > 0 {
      AttachedIffLaunchedFor(ss, es, i - 1, socket);
      AlwaysInv(ss, es, i - 1);
      PortAfter(ss[i - 1], es[i - 1]);
      AttachedOneMore(ss, es, i, socket);
    }
  }

  lemma AttachedOneMore(ss: seq<Agent>, es: seq<Event>, i: nat, socket: SocketId)
    requires 0 < i <= |es| < |ss|
    ensures RunsFor(ss, es, i, socket) <==>
              var e, same := es[i - 1], ss[i].log == ss[i - 1].log;
              || (e.Launch? && e.succeeds && e.socket == socket && !same)
              || (!e.SocketExpired? && same && RunsFor(ss, es, i - 1, socket))
  {
    if j: nat :| AttachedBy(ss, es, j, i, socket) {
      assert j == i - 1 || AttachedBy(ss, es, j, i - 1, socket);
    }
    if es[i - 1].Launch? && es[i - 1].succeeds && es[i - 1].socket == socket && ss[i].log != ss[i - 1].log {
      assert AttachedBy(ss, es, i - 1, i, socket);
    }
    var k := i - 1;
    if !es[k].SocketExpired? && ss[i].log == ss[k].log && RunsFor(ss, es, k, socket) {
      var j: nat :| AttachedBy(ss, es, j, k, socket);
      assert AttachedBy(ss, es, j, i, socket);
    }
  }
}

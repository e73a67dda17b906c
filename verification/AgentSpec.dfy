/**
 cast/receiver/application_agent.cc: which receiver application runs.  Whether an
 application's Launch succeeds is an oracle.  `log` records every call of Launch and Stop
 and every broadcast of the receiver status.
 */
module AgentSpec {
  import opened Common

  type AppId = string
  type SocketId = int

  /** An Application; its list of ids does not change while it is registered. */
  datatype App = App(key: int, appIds: seq<AppId>)

  /** What RECEIVER_STATUS says about the running application. */
  datatype Status = NothingRuns | Runs(app: App, via: AppId, isIdleScreen: bool)

  datatype Action =
    | Launched(app: App, via: AppId)
    | LaunchFailed(app: App, via: AppId)
    | Stopped(app: App)
    | Broadcast(status: Status)

  datatype Agent = Agent(
    alive: bool,
    registered: map<AppId, App>,  // registered_applications_
    idle: Option<App>,            // idle_screen_app_
    launched: Option<App>,        // launched_app_
    via: AppId,                   // launched_via_app_id_
    port: Option<SocketId>,       // the socket of message_port_
    log: seq<Action>
  )

  datatype Error = NoError | ItemNotFound | ParameterInvalid | UnknownError

  function Initial(): Agent {
    Agent(true, map[], None, None, "", None, [])
  }

  function FirstAppId(app: App): AppId {
    if app.appIds == [] then "" else app.appIds[0]
  }

  /** PopulateReceiverStatus. */
  function StatusOf(s: Agent): Status {
    if s.launched.None? then NothingRuns
    else Runs(s.launched.value, s.via, s.launched == s.idle)
  }

  function StopRunning(s: Agent): Agent {
    if s.launched.None? then s
    else s.(log := s.log + [Stopped(s.launched.value)], port := None, launched := None, via := "")
  }

  /** Launches what was asked for; a failure detaches the socket again. */
  function LaunchDesired(s: Agent, app: App, id: AppId, socket: Option<SocketId>, succeeds: bool): Agent {
    if succeeds
    then s.(port := if socket.Some? then socket else s.port, launched := Some(app), via := id,
            log := s.log + [Launched(app, id)])
    else s.(port := None, log := s.log + [LaunchFailed(app, id)])
  }

  function LaunchFallback(s: Agent, app: App, succeeds: bool): Agent {
    var id := FirstAppId(app);
    if succeeds
    then s.(launched := Some(app), via := id, log := s.log + [Launched(app, id)])
    else s.(log := s.log + [LaunchFailed(app, id)])
  }

  function BroadcastStatus(s: Agent): Agent {
    s.(log := s.log + [Broadcast(StatusOf(s))])
  }

  /** The application with this id, if any; no id stands for none. */
  function DesiredApp(s: Agent, id: AppId): Option<App>
    requires id == "" || id in s.registered
  {
    if id == "" then None else Some(s.registered[id])
  }

  /** Stops what runs and launches what is desired, or else falls back to the idle screen. */
  function Replace(s: Agent, id: AppId, socket: Option<SocketId>, succeeds: bool, fallbackSucceeds: bool): Agent
    requires id == "" || id in s.registered
  {
    var desired := DesiredApp(s, id);
    var fallback := if desired.Some? && desired != s.idle then s.idle else None;
    var s1 := StopRunning(s);
    var s2 := if desired.Some? then LaunchDesired(s1, desired.value, id, socket, succeeds) else s1;
    if s2.launched.None? && fallback.Some? then LaunchFallback(s2, fallback.value, fallbackSucceeds) else s2
  }

  /** SwitchToApplication: the outcomes of up to two launches are given. */
  function SwitchTo(s: Agent, id: AppId, socket: Option<SocketId>, succeeds: bool, fallbackSucceeds: bool): (Agent, Error) {
    if id != "" && id !in s.registered then (s, ItemNotFound)
    else if s.launched == DesiredApp(s, id) then (s, NoError)
    else
      (BroadcastStatus(Replace(s, id, socket, succeeds, fallbackSucceeds)),
       if id != "" && !succeeds then UnknownError else NoError)
  }

  function GoIdle(s: Agent, succeeds: bool): Agent {
    SwitchTo(s, if s.idle.Some? then FirstAppId(s.idle.value) else "", None, succeeds, false).0
  }

  function Register(s: Agent, app: App, autoLaunch: bool, succeeds: bool): Agent {
    var s1 := s.(registered := s.registered + (map id | id in app.appIds :: app));
    if !autoLaunch then s1
    else
      var s2 := s1.(idle := Some(app));
      if s.launched.None? then GoIdle(s2, succeeds) else s2
  }

  function Unregister(s: Agent, app: App, succeeds: bool): Agent {
    var s1 := s.(registered := map id | id in s.registered && s.registered[id] != app :: s.registered[id],
                 idle := if s.idle == Some(app) then None else s.idle);
    if s.launched == Some(app) then GoIdle(s1, succeeds) else s1
  }

  function HandleLaunch(s: Agent, id: AppId, socket: SocketId, succeeds: bool, fallbackSucceeds: bool): (Agent, Error) {
    if id == "" then (s, ParameterInvalid)
    else SwitchTo(s, id, Some(socket), succeeds, fallbackSucceeds)
  }

  /** The session id of a STOP request: missing, or the running application's own, or neither. */
  datatype Session = NoSession | OwnSession | OtherSession

  datatype Event =
    | RegisterApp(app: App, autoLaunch: bool, succeeds: bool)
    | UnregisterApp(app: App, succeeds: bool)
    | StopIfRunning(app: App, succeeds: bool)
    | Launch(id: AppId, socket: SocketId, succeeds: bool, fallbackSucceeds: bool)
    | Stop(session: Session, succeeds: bool)
    | SocketClosed(socket: SocketId, succeeds: bool)
    | SocketExpired
    | Destroy

  /** RegisterApplication's checks, and that an application has at least one id. */
  predicate CanRegister(s: Agent, app: App, autoLaunch: bool) {
    && app.appIds != []
    && (forall i :: 0 <= i < |app.appIds| ==> app.appIds[i] != "" && app.appIds[i] !in s.registered)
    && (forall i, j :: 0 <= i < j < |app.appIds| ==> app.appIds[i] != app.appIds[j])
    && (autoLaunch ==> s.idle.None?)
  }

  predicate Enabled(s: Agent, e: Event) {
    s.alive && (e.RegisterApp? ==> CanRegister(s, e.app, e.autoLaunch))
  }

  function Step(s: Agent, e: Event): Agent {
    match e
    case RegisterApp(app, autoLaunch, succeeds) => Register(s, app, autoLaunch, succeeds)
    case UnregisterApp(app, succeeds) => Unregister(s, app, succeeds)
    case StopIfRunning(app, succeeds) => if s.launched == Some(app) then GoIdle(s, succeeds) else s
    case Launch(id, socket, succeeds, fallbackSucceeds) => HandleLaunch(s, id, socket, succeeds, fallbackSucceeds).0
    case Stop(session, succeeds) =>
      if session.NoSession? || (session.OwnSession? && s.launched.Some?) then GoIdle(s, succeeds) else s
    case SocketClosed(socket, succeeds) => if s.port == Some(socket) then GoIdle(s, succeeds) else s
    case SocketExpired => s.(port := None)
    case Destroy => SwitchTo(s.(idle := None), "", None, false, false).0.(alive := false)
  }

  ghost predicate IsRun(ss: seq<Agent>, es: seq<Event>) {
    && |ss| == |es| + 1
    && ss[0] == Initial()
    && forall i :: 0 <= i < |es| ==> Enabled(ss[i], es[i]) && ss[i + 1] == Step(ss[i], es[i])
  }
}

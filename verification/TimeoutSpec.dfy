/**
 The platform client together with the alarms of its requests.  Every request gets an alarm
 of its own when it is made; the alarm is destroyed when its request is erased, for whatever
 reason, but functors that it has posted stay with the task runner.  A request times out when
 the task runner calls a functor and the alarm then runs its task.
 */
module TimeoutSpec {
  import opened Common
  import A = AlarmSpec
  import C = ClientSpec
  import opened SortedKeys

  const TIMEOUT_TASK: A.TaskId := 0

  datatype System = System(
    client: C.Client,
    alarms: map<C.RequestId, A.World>  // for every request ever made; its clock as of its last event
  )

  function Initial(now: Time, nextId: C.RequestId): System {
    System(C.Initial(now, nextId), map[])
  }

  datatype Event =
    | Call(e: C.Event)                                // anything but a request or a timeout
    | Request(receiver: Id, app: Id, wait: nat, lag: nat)
    | RunTask(id: C.RequestId, f: A.FunctorId, lag: nat)
    | MoveTask(id: C.RequestId, f: A.FunctorId)

  /** The alarm of a request, brought up to the present. */
  function AlarmOf(s: System, id: C.RequestId): A.World
    requires id in s.alarms
  {
    s.alarms[id].(now := s.client.now)
  }

  predicate Enabled(s: System, e: Event) {
    match e
    case Call(ce) => !ce.Issue? && !ce.Timeout? && C.Enabled(s.client, ce)
    case Request(_, _, _, _) => s.client.alive
    case RunTask(id, f, lag) => id in s.alarms && A.Enabled(AlarmOf(s, id), A.Fire(f, lag))
    case MoveTask(id, f) => id in s.alarms && A.Enabled(AlarmOf(s, id), A.Move(f))
  }

  /** The alarms of erased requests are destroyed. */
  function Settled(alarms: map<C.RequestId, A.World>, client: C.Client): map<C.RequestId, A.World> {
    map id | id in alarms :: if C.Holders(client, id) == {} then A.DestroyAlarm(alarms[id]) else alarms[id]
  }

  function NewAlarm(now: Time, wait: nat, lag: nat): A.World {
    A.ScheduleTask(A.Initial(now + wait), TIMEOUT_TASK, now + C.REQUEST_TIMEOUT, lag)
  }

  /**
   A request to a known receiver starts its alarm.  The clock is read for the time wanted,
   `wait` later by the alarm, and `lag` after that by the task runner.
   */
  function MakeRequest(s: System, receiver: Id, app: Id, wait: nat, lag: nat): System {
    var issued := C.Step(s.client, C.Issue(receiver, app));
    if receiver !in s.client.sockets then s.(client := issued)
    else
      var w := NewAlarm(s.client.now, wait, lag);
      System(C.Step(issued, C.Tick(wait + lag)), s.alarms[s.client.nextId := w])
  }

  function Fired(s: System, id: C.RequestId, f: A.FunctorId, lag: nat): A.Result
    requires Enabled(s, RunTask(id, f, lag))
  {
    A.Step(AlarmOf(s, id), A.Fire(f, lag))
  }

  function Run(s: System, id: C.RequestId, f: A.FunctorId, lag: nat): System
    requires Enabled(s, RunTask(id, f, lag))
  {
    var fired := Fired(s, id, f, lag);
    var alarms := s.alarms[id := fired.world];
    if fired.ran.None? then System(s.client.(now := fired.world.now), alarms)
    else
      var client := C.Step(s.client, C.Timeout(id));
      System(client, Settled(alarms, client))
  }

  function Step(s: System, e: Event): System
    requires Enabled(s, e)
  {
    match e
    case Call(ce) =>
      var client := C.Step(s.client, ce);
      System(client, Settled(s.alarms, client))
    case Request(receiver, app, wait, lag) => MakeRequest(s, receiver, app, wait, lag)
    case RunTask(id, f, lag) => Run(s, id, f, lag)
    case MoveTask(id, f) => s.(alarms := s.alarms[id := A.Step(AlarmOf(s, id), A.Move(f)).world])
  }

  ghost predicate IsRun(ss: seq<System>, es: seq<Event>) {
    && |ss| == |es| + 1
    && ss[0] == Initial(ss[0].client.now, ss[0].client.nextId)
    && forall i :: 0 <= i < |es| ==> Enabled(ss[i], es[i]) && ss[i + 1] == Step(ss[i], es[i])
  }
}

/**
 The one-shot timer of util/alarm.cc as a state machine over its events.

 A posted CancelableFunctor is an entry of the task runner's queue.  It keeps its own
 pointer to the alarm (`live` says that the pointer is not null), and the alarm keeps a
 pointer to the functor (`queued`).  Calls that the client's task makes re-entrantly are
 the events that follow the `Fire` event that ran the task: the code does not touch the
 alarm again after starting the task.
 */
module AlarmSpec {
  import opened Common

  type FunctorId = nat
  type TaskId = nat

  /** A functor in the task runner's queue; the runner does not call it before `due`. */
  datatype Posted = Posted(due: Time, live: bool)

  datatype Alarm = Alarm(
    alive: bool,
    task: Option<TaskId>,       // scheduled_task_
    alarmTime: Time,            // alarm_time_
    queued: Option<FunctorId>,  // queued_fire_
    nextFire: Time              // next_fire_time_
  )

  /** The alarm together with the clock and the functors it has posted. */
  datatype World = World(now: Time, alarm: Alarm, queue: map<FunctorId, Posted>, nextId: FunctorId)

  function Initial(now: Time): World {
    World(now, Alarm(true, None, 0, None, 0), map[], 0)
  }

  /** `lag` is how far the clock moves between the alarm's reading and the task runner's. */
  datatype Event =
    | Tick(elapsed: nat)
    | Schedule(task: TaskId, desired: Time, lag: nat)
    | Cancel
    | Destroy
    | Fire(f: FunctorId, lag: nat)
    | Move(f: FunctorId)
    | Drop(f: FunctorId)

  /** Clients use the alarm while it lives; the runner calls what it holds, never early. */
  predicate Enabled(w: World, e: Event) {
    match e
    case Tick(_) => true
    case Schedule(_, _, _) => w.alarm.alive
    case Cancel => w.alarm.alive
    case Destroy => w.alarm.alive
    case Fire(f, _) => f in w.queue && w.queue[f].due <= w.now
    case Move(f) => f in w.queue
    case Drop(f) => f in w.queue
  }

  /** CancelableFunctor::Cancel. */
  function CancelFunctor(w: World, f: FunctorId): World {
    if f in w.queue && w.queue[f].live then
      w.(alarm := w.alarm.(queued := None), queue := w.queue[f := w.queue[f].(live := false)])
    else
      w
  }

  /** Alarm::InvokeLater: post a functor that is linked in both directions. */
  function InvokeLater(w: World, fireTime: Time, lag: nat): World {
    World(
      w.now + lag,
      w.alarm.(queued := Some(w.nextId), nextFire := fireTime),
      w.queue[w.nextId := Posted(fireTime + lag, true)],
      w.nextId + 1)
  }

  /** Alarm::ScheduleWithTask. */
  function ScheduleTask(w: World, task: TaskId, desired: Time, lag: nat): World {
    var alarmTime := Max(w.now, desired);
    var w1 := w.(alarm := w.alarm.(task := Some(task), alarmTime := alarmTime));
    if w1.alarm.queued.None? then
      InvokeLater(w1, alarmTime, lag)
    else if w1.alarm.nextFire <= alarmTime then
      w1
    else
      InvokeLater(CancelFunctor(w1, w1.alarm.queued.value), alarmTime, lag)
  }

  /** Alarm::Cancel. */
  function CancelTask(w: World): World {
    w.(alarm := w.alarm.(task := None))
  }

  /** Alarm::~Alarm. */
  function DestroyAlarm(w: World): World {
    var w1 := if w.alarm.queued.Some? then CancelFunctor(w, w.alarm.queued.value) else w;
    w1.(alarm := w1.alarm.(alive := false, task := None))
  }

  datatype Result = Result(world: World, ran: Option<TaskId>)

  /** Alarm::TryInvoke. */
  function TryInvoke(w: World, lag: nat): Result {
    if w.alarm.task.None? then
      Result(w, None)
    else if w.now < w.alarm.alarmTime then
      Result(InvokeLater(w, w.alarm.alarmTime, lag), None)
    else
      Result(w.(alarm := w.alarm.(task := None)), w.alarm.task)
  }

  /** CancelableFunctor::operator(), on a functor that the runner has taken off its queue. */
  function FireFunctor(w: World, f: FunctorId, lag: nat): Result
    requires f in w.queue
  {
    var w1 := w.(queue := w.queue - {f});
    if w.queue[f].live then
      TryInvoke(w1.(alarm := w1.alarm.(queued := None)), lag)
    else
      Result(w1, None)
  }

  /** CancelableFunctor's move constructor; the functor gets a new address. */
  function MoveFunctor(w: World, f: FunctorId): World
    requires f in w.queue
  {
    var w1 := w.(queue := (w.queue - {f})[w.nextId := w.queue[f]], nextId := w.nextId + 1);
    if w.queue[f].live then w1.(alarm := w1.alarm.(queued := Some(w.nextId))) else w1
  }

  /** CancelableFunctor's destructor, when the runner discards a task without calling it. */
  function DropFunctor(w: World, f: FunctorId): World {
    var w1 := CancelFunctor(w, f);
    w1.(queue := w1.queue - {f})
  }

  function Step(w: World, e: Event): Result
    requires Enabled(w, e)
  {
    match e
    case Tick(elapsed) => Result(w.(now := w.now + elapsed), None)
    case Schedule(task, desired, lag) => Result(ScheduleTask(w, task, desired, lag), None)
    case Cancel => Result(CancelTask(w), None)
    case Destroy => Result(DestroyAlarm(w), None)
    case Fire(f, lag) => FireFunctor(w, f, lag)
    case Move(f) => Result(MoveFunctor(w, f), None)
    case Drop(f) => Result(DropFunctor(w, f), None)
  }

  /** `ws` are the worlds visited when `es` happen one after the other. */
  ghost predicate IsRun(ws: seq<World>, es: seq<Event>) {
    && |ws| == |es| + 1
    && ws[0] == Initial(ws[0].now)
    && forall i :: 0 <= i < |es| ==> Enabled(ws[i], es[i]) && ws[i + 1] == Step(ws[i], es[i]).world
  }

  /** The back-pointers agree, so at most one posted functor is linked to the alarm. */
  ghost predicate Linked(w: World) {
    && (w.alarm.queued.Some? ==>
          && w.alarm.queued.value in w.queue
          && w.queue[w.alarm.queued.value].live
          && w.alarm.nextFire <= w.queue[w.alarm.queued.value].due)
    && (forall f :: f in w.queue && w.queue[f].live ==> w.alarm.queued == Some(f))
    && (forall f :: f in w.queue ==> f < w.nextId)
    && (!w.alarm.alive ==> w.alarm.queued.None? && w.alarm.task.None?)
  }

  /** A scheduled task has a live functor that will be called no later than it is wanted. */
  ghost predicate Armed(w: World) {
    w.alarm.task.Some? ==> w.alarm.queued.Some? && w.alarm.nextFire <= w.alarm.alarmTime
  }

  /** The clock moves by at most `limit` between the alarm's reading and the task runner's. */
  ghost predicate LagsAtMost(e: Event, limit: nat) {
    e.Schedule? || e.Fire? ==> e.lag <= limit
  }

  /** The runner calls the queued functor no later than `limit` after it is wanted. */
  ghost predicate Prompt(w: World, limit: nat) {
    w.alarm.queued.Some? && w.alarm.queued.value in w.queue ==>
      w.queue[w.alarm.queued.value].due <= w.alarm.nextFire + limit
  }

  /** The OSP_CHECKs on the path that `e` takes from `w`. */
  ghost predicate ChecksPass(w: World, e: Event) {
    match e
    case Tick(_) => true
    case Cancel => true
    case Schedule(_, _, _) => w.alarm.queued.Some? ==> CancelUnlinks(w, w.alarm.queued.value)
    case Destroy => w.alarm.queued.Some? ==> CancelUnlinks(w, w.alarm.queued.value)
    // The functor called must be the queued one; it is then free to post again.
    case Fire(f, _) => f in w.queue && w.queue[f].live ==> w.alarm.queued == Some(f)
    case Move(f) => f in w.queue && w.queue[f].live ==> w.alarm.queued == Some(f)
    case Drop(f) => f in w.queue && w.queue[f].live ==> w.alarm.queued == Some(f)
  }

  /** Canceling through queued_fire_ reaches an existing functor that points back. */
  ghost predicate CancelUnlinks(w: World, f: FunctorId) {
    && f in w.queue
    && w.queue[f].live
    && CancelFunctor(w, f).alarm.queued.None?
    && forall g :: g in CancelFunctor(w, f).queue ==> !CancelFunctor(w, f).queue[g].live
  }
}

/**
 util/alarm.cc in its own form: an Alarm and the CancelableFunctors it posts are objects
 that point at each other.  Every method is proved against the event of AlarmSpec that it
 implements.
 */
module AlarmImpl {
  import opened Common
  import Spec = AlarmSpec
  import AlarmProofs

  /** Alarm::CancelableFunctor. */
  class CancelableFunctor {
    const id: Spec.FunctorId
    var alarm: Alarm?

    constructor (alarm: Alarm)
      requires alarm.queuedFire == null
      modifies alarm`queuedFire
      ensures this.alarm == alarm && alarm.queuedFire == this && id == alarm.runner.nextId
    {
      this.id := alarm.runner.nextId;
      this.alarm := alarm;
      new;
      alarm.queuedFire := this;
    }

    /** The move constructor; the new functor has an address of its own. */
    constructor MoveFrom(other: CancelableFunctor, id: Spec.FunctorId)
      requires other.alarm != null ==> other.alarm.queuedFire == other
      modifies other`alarm, (if other.alarm == null then {} else {other.alarm})`queuedFire
      ensures this.id == id && alarm == old(other.alarm) && other.alarm == null
      ensures alarm != null ==> alarm.queuedFire == this
    {
      this.id := id;
      alarm := other.alarm;
      new;
      other.alarm := null;
      if alarm != null {
        alarm.queuedFire := this;
      }
    }

    method Cancel()
      requires alarm != null ==> alarm.queuedFire == this
      modifies this, alarm
      ensures alarm == null
      ensures old(alarm) != null ==>
        && old(alarm).queuedFire == null
        && old(alarm).task == old(alarm.task)
        && old(alarm).alarmTime == old(alarm.alarmTime)
        && old(alarm).nextFireTime == old(alarm.nextFireTime)
        && old(alarm).alive == old(alarm.alive)
    {
      if alarm != null {
        alarm.queuedFire := null;
        alarm := null;
      }
    }
  }

  datatype Entry = Entry(functor: CancelableFunctor, due: Time)

  /** The clock, and the part of the task runner's queue that holds the alarm's functors. */
  class TaskRunner {
    var now: Time
    var queue: map<Spec.FunctorId, Entry>
    var nextId: Spec.FunctorId

    constructor (now: Time)
      ensures this.now == now && queue == map[] && nextId == 0
    {
      this.now := now;
      queue := map[];
      nextId := 0;
    }

    ghost function Functors(): set<CancelableFunctor>
      reads this
    {
      set id | id in queue :: queue[id].functor
    }

    /** The runner reads the clock itself, `lag` after its caller did. */
    method PostTaskWithDelay(functor: CancelableFunctor, delay: Time, lag: nat)
      requires functor.id == nextId
      modifies this
      ensures now == old(now) + lag
      ensures queue == old(queue)[functor.id := Entry(functor, old(now) + lag + delay)]
      ensures nextId == old(nextId) + 1
    {
      now := now + lag;
      queue := queue[functor.id := Entry(functor, now + delay)];
      nextId := nextId + 1;
    }

    /** Takes a functor that is not linked to the alarm off the queue. */
    method RemoveUnlinked(id: Spec.FunctorId, alarm: Alarm)
      requires alarm.runner == this && alarm.Valid() && id in queue && queue[id].functor.alarm == null
      modifies this`queue
      ensures alarm.Valid() && Functors() <= old(Functors()) && old(queue[id].functor) !in Functors()
      ensures alarm.World() == old(alarm.World()).(queue := old(alarm.World()).queue - {id})
    {
      ghost var w := alarm.World();
      assert !w.queue[id].live;
      queue := queue - {id};
      assert alarm.World() == w.(queue := w.queue - {id});
    }

    /** Takes a functor off the queue to call it; a linked one is unlinked from the alarm first. */
    method TakeTask(id: Spec.FunctorId, alarm: Alarm) returns (functor: CancelableFunctor)
      requires alarm.runner == this && alarm.Valid() && id in queue
      modifies this`queue, alarm`queuedFire
      ensures alarm.Valid() && Functors() <= old(Functors())
      ensures functor == old(queue[id].functor) && functor !in Functors()
      ensures (functor.alarm != null) == old(alarm.World()).queue[id].live
      ensures var w := old(alarm.World());
              var w1 := w.(queue := w.queue - {id});
              if functor.alarm != null
              then alarm.World() == w1.(alarm := w1.alarm.(queued := None)) && alarm.queuedFire == null && alarm.alive
              else alarm.World() == w1
    {
      functor := queue[id].functor;
      ghost var w := alarm.World();
      assert w.queue[id].live == (functor.alarm != null);
      if functor.alarm == null {
        RemoveUnlinked(id, alarm);
      } else {
        queue := queue - {id};
        functor.alarm.queuedFire := null;
        AlarmProofs.TakeKeepsLinked(w, id);
        assert alarm.World() == w.(queue := w.queue - {id}, alarm := w.alarm.(queued := None));
      }
    }

    /** Runs one task whose time has come; the result is the client task it started, if any. */
    method RunTask(id: Spec.FunctorId, lag: nat, alarm: Alarm) returns (ran: Option<Spec.TaskId>)
      requires alarm.runner == this && alarm.Valid()
      requires id in queue && queue[id].due <= now
      modifies this, alarm, queue[id].functor
      ensures alarm.Valid() && fresh(Functors() - old(Functors()))
      ensures Spec.Result(alarm.World(), ran) == Spec.FireFunctor(old(alarm.World()), id, lag)
    {
      var functor := TakeTask(id, alarm);
      ran := None;
      if functor.alarm != null {
        ran := alarm.TryInvoke(lag);
        Finish(functor, alarm);
      }
    }

    /** A functor that has been called forgets the alarm; it is not in the queue any more. */
    method Finish(functor: CancelableFunctor, alarm: Alarm)
      requires alarm.runner == this && alarm.Valid() && functor !in Functors()
      modifies functor
      ensures alarm.Valid() && alarm.World() == old(alarm.World()) && functor.alarm == null
    {
      functor.alarm := null;
    }

    /** The destructor of a functor that the runner discards without calling it. */
    method CancelTask(id: Spec.FunctorId, alarm: Alarm)
      requires alarm.runner == this && alarm.Valid() && id in queue
      modifies alarm, queue[id].functor
      ensures alarm.Valid() && queue[id].functor.alarm == null
      ensures alarm.World() == Spec.CancelFunctor(old(alarm.World()), id)
    {
      ghost var w := alarm.World();
      if queue[id].functor.alarm != null {
        assert w.queue[id].live;
        alarm.UnlinkQueuedFire();
      } else {
        assert !w.queue[id].live;
      }
    }

    /** The runner discards a task. */
    method DiscardTask(id: Spec.FunctorId, alarm: Alarm)
      requires alarm.runner == this && alarm.Valid() && id in queue
      modifies this, alarm, queue[id].functor
      ensures alarm.Valid() && Functors() <= old(Functors())
      ensures alarm.World() == Spec.DropFunctor(old(alarm.World()), id)
    {
      CancelTask(id, alarm);
      RemoveUnlinked(id, alarm);
    }
  }

  class Alarm {
    const runner: TaskRunner
    var alive: bool
    var task: Option<Spec.TaskId>
    var alarmTime: Time
    var queuedFire: CancelableFunctor?
    var nextFireTime: Time

    ghost function World(): Spec.World
      reads this, runner, runner.Functors()
    {
      Spec.World(
        runner.now,
        Spec.Alarm(alive, task, alarmTime,
                   if queuedFire == null then None else Some(queuedFire.id),
                   nextFireTime),
        map id | id in runner.queue :: Spec.Posted(runner.queue[id].due, runner.queue[id].functor.alarm == this),
        runner.nextId)
    }

    /** Every queued functor is known by its own id, and points at this alarm or at nothing. */
    ghost predicate Shape()
      reads this, runner, runner.Functors()
    {
      && (forall id :: id in runner.queue ==>
            && runner.queue[id].functor in runner.Functors()
            && runner.queue[id].functor.id == id
            && (runner.queue[id].functor.alarm == null || runner.queue[id].functor.alarm == this))
      && (queuedFire != null ==> queuedFire.id in runner.queue && runner.queue[queuedFire.id].functor == queuedFire)
    }

    ghost predicate Valid()
      reads this, runner, runner.Functors()
    {
      Shape() && Spec.Linked(World())
    }

    constructor (runner: TaskRunner)
      requires runner.queue == map[] && runner.nextId == 0
      ensures Valid() && this.runner == runner
      ensures World() == Spec.Initial(runner.now)
    {
      this.runner := runner;
      alive, task, alarmTime, queuedFire, nextFireTime := true, None, 0, null, 0;
    }

    method Cancel()
      requires Valid() && alive
      modifies this
      ensures Valid()
      ensures World() == Spec.CancelTask(old(World()))
    {
      task := None;
      assert World() == Spec.CancelTask(old(World()));
    }

    /** The destructor. */
    method Destroy()
      requires Valid() && alive
      modifies this, queuedFire
      ensures Valid()
      ensures World() == Spec.DestroyAlarm(old(World()))
    {
      if queuedFire != null {
        UnlinkQueuedFire();
      }
      alive, task := false, None;
      assert World() == Spec.DestroyAlarm(old(World()));
    }

    method UnlinkQueuedFire()
      requires Valid() && queuedFire != null
      modifies this, queuedFire
      ensures Valid() && queuedFire == null
      ensures World() == Spec.CancelFunctor(old(World()), old(queuedFire.id))
    {
      ghost var w, id := World(), queuedFire.id;
      assert w.queue[id].live;
      queuedFire.Cancel();
      assert World() == Spec.CancelFunctor(w, id);
    }

    method SetTask(task: Spec.TaskId, alarmTime: Time)
      requires Valid() && alive
      modifies this`task, this`alarmTime
      ensures Valid()
      ensures World() == old(World()).(alarm := old(World()).alarm.(task := Some(task), alarmTime := alarmTime))
    {
      ghost var w := World();
      this.task := Some(task);
      this.alarmTime := alarmTime;
      assert World() == w.(alarm := w.alarm.(task := Some(task), alarmTime := alarmTime));
    }

    method ScheduleWithTask(task: Spec.TaskId, desiredAlarmTime: Time, lag: nat)
      requires Valid() && alive
      modifies this, runner, queuedFire
      ensures Valid() && fresh(runner.Functors() - old(runner.Functors()))
      ensures World() == Spec.ScheduleTask(old(World()), task, desiredAlarmTime, lag)
    {
      var now := runner.now;
      SetTask(task, Max(now, desiredAlarmTime));
      if queuedFire != null {
        if nextFireTime <= alarmTime {
          return;
        }
        UnlinkQueuedFire();
      }
      InvokeLater(now, alarmTime, lag);
    }

    method InvokeLater(now: Time, fireTime: Time, lag: nat)
      requires Valid() && alive && queuedFire == null && now == runner.now
      modifies this, runner
      ensures Valid() && fresh(runner.Functors() - old(runner.Functors()))
      ensures World() == Spec.InvokeLater(old(World()), fireTime, lag)
    {
      ghost var w := World();
      nextFireTime := fireTime;
      var functor := new CancelableFunctor(this);
      assert functor !in old(runner.Functors());
      runner.PostTaskWithDelay(functor, fireTime - now, lag);
      assert runner.Functors() <= old(runner.Functors()) + {functor};
      forall id | id in w.queue
        ensures id in runner.queue && runner.queue[id] == old(runner.queue[id]) && runner.queue[id].functor != functor
      {
      }
      assert World().queue == w.queue[functor.id := Spec.Posted(fireTime + lag, true)];
      assert World() == Spec.InvokeLater(w, fireTime, lag);
      AlarmProofs.PostKeepsLinked(w, fireTime, lag);
    }

    /** Instead of calling the client's task, hands it to the caller to be run. */
    method TryInvoke(lag: nat) returns (ran: Option<Spec.TaskId>)
      requires Valid() && queuedFire == null
      requires alive
      modifies this, runner
      ensures Valid() && fresh(runner.Functors() - old(runner.Functors()))
      ensures Spec.Result(World(), ran) == Spec.TryInvoke(old(World()), lag)
    {
      if task.None? {
        return None;
      }
      var now := runner.now;
      if now < alarmTime {
        InvokeLater(now, alarmTime, lag);
        return None;
      }
      ghost var w := World();
      ran, task := task, None;
      assert World() == w.(alarm := w.alarm.(task := None));
    }
  }
}

/** What every run of the alarm keeps, and when client tasks run. */
module AlarmProofs {
  import opened Common
  import opened AlarmSpec

  /** Every event keeps the two back-pointers in agreement, and passes its OSP_CHECKs. */
  lemma StepKeepsLinked(w: World, e: Event)
    requires Linked(w) && Enabled(w, e)
    ensures ChecksPass(w, e)
    ensures Linked(Step(w, e).world)
    ensures w.now <= Step(w, e).world.now
  {
    if w.alarm.queued.Some? {
      CancelReachesFunctor(w, w.alarm.queued.value);
    }
  }

  lemma CancelReachesFunctor(w: World, f: FunctorId)
    requires Linked(w) && w.alarm.queued == Some(f)
    ensures CancelUnlinks(w, f)
  {
    var w1 := CancelFunctor(w, f);
    forall g | g in w1.queue
      ensures !w1.queue[g].live
    {
      assert g in w.queue;
    }
  }

  /** The runner has taken the live functor off its queue to call it. */
  lemma TakeKeepsLinked(w: World, f: FunctorId)
    requires Linked(w) && f in w.queue && w.queue[f].live
    ensures w.alarm.alive
    ensures Linked(w.(queue := w.queue - {f}, alarm := w.alarm.(queued := None)))
  {
  }

  lemma PostKeepsLinked(w: World, fireTime: Time, lag: nat)
    requires Linked(w) && w.alarm.queued.None? && w.alarm.alive
    ensures Linked(InvokeLater(w, fireTime, lag))
  {
  }

  /** No event but a discarded functor separates a scheduled task from its firing. */
  lemma StepKeepsArmed(w: World, e: Event)
    requires Linked(w) && Armed(w) && Enabled(w, e) && !e.Drop?
    ensures Armed(Step(w, e).world)
  {
  }

  lemma StepKeepsPrompt(w: World, e: Event, limit: nat)
    requires Linked(w) && Prompt(w, limit) && Enabled(w, e) && LagsAtMost(e, limit)
    ensures Prompt(Step(w, e).world, limit)
  {
  }

  /** Safety over whole runs. */
  lemma {:induction false} AlwaysLinked(ws: seq<World>, es: seq<Event>, i: nat)
    requires IsRun(ws, es) && i < |ws|
    ensures Linked(ws[i])
    ensures i < |es| ==> ChecksPass(ws[i], es[i])
  {
    if i > 0 {
      AlwaysLinked(ws, es, i - 1);
      StepKeepsLinked(ws[i - 1], es[i - 1]);
    }
    if i < |es| {
      StepKeepsLinked(ws[i], es[i]);
    }
  }

  ghost predicate IsClientCall(e: Event) {
    e.Schedule? || e.Cancel? || e.Destroy?
  }

  /** The task that step `i` hands to the client, if any. */
  ghost function Ran(ws: seq<World>, es: seq<Event>, i: nat): Option<TaskId>
    requires IsRun(ws, es) && i < |es|
  {
    Step(ws[i], es[i]).ran
  }

  /** Event `j` is a Schedule that nothing before event `i` has replaced, canceled or run. */
  ghost predicate LatestSchedule(ws: seq<World>, es: seq<Event>, j: nat, i: nat)
    requires IsRun(ws, es)
  {
    && j < i <= |es|
    && es[j].Schedule?
    && forall m :: j < m < i ==> !IsClientCall(es[m]) && Ran(ws, es, m).None?
  }

  /** The time for which Schedule event `j` asks, given when it was made. */
  ghost function WantedTime(ws: seq<World>, es: seq<Event>, j: nat): Time
    requires IsRun(ws, es) && j < |es| && es[j].Schedule?
  {
    Max(ws[j].now, es[j].desired)
  }

  /** An outstanding Schedule determines what the alarm holds. */
  lemma {:induction false} HoldsThisSchedule(ws: seq<World>, es: seq<Event>, j: nat, i: nat)
    requires IsRun(ws, es) && LatestSchedule(ws, es, j, i)
    ensures ws[i].alarm.task == Some(es[j].task) && ws[i].alarm.alarmTime == WantedTime(ws, es, j)
    decreases i
  {
    if j < i - 1 {
      HoldsThisSchedule(ws, es, j, i - 1);
      assert !IsClientCall(es[i - 1]) && Ran(ws, es, i - 1).None?;
    }
  }

  lemma {:induction false} SomeScheduleIsOutstanding(ws: seq<World>, es: seq<Event>, i: nat) returns (j: nat)
    requires IsRun(ws, es) && i <= |es| && ws[i].alarm.task.Some?
    ensures LatestSchedule(ws, es, j, i)
    decreases i
  {
    j := i - 1;
    if !es[i - 1].Schedule? {
      j := SomeScheduleIsOutstanding(ws, es, i - 1);
    }
  }

  /** The alarm holds a task exactly when some Schedule is still outstanding: its own. */
  lemma HoldsLatestSchedule(ws: seq<World>, es: seq<Event>, i: nat)
    requires IsRun(ws, es) && i <= |es|
    ensures ws[i].alarm.task.Some? ==> exists j: nat :: LatestSchedule(ws, es, j, i)
    ensures forall j: nat :: LatestSchedule(ws, es, j, i) ==>
      && ws[i].alarm.task == Some(es[j].task)
      && ws[i].alarm.alarmTime == WantedTime(ws, es, j)
  {
    if ws[i].alarm.task.Some? {
      var j := SomeScheduleIsOutstanding(ws, es, i);
    }
    forall j: nat | LatestSchedule(ws, es, j, i)
      ensures ws[i].alarm.task == Some(es[j].task) && ws[i].alarm.alarmTime == WantedTime(ws, es, j)
    {
      HoldsThisSchedule(ws, es, j, i);
    }
  }

  /**
   A client task runs exactly when a live functor is called while a Schedule is
   outstanding whose time has come; the task that runs is the one of that Schedule.
   */
  lemma RunsExactlyTheLatest(ws: seq<World>, es: seq<Event>, i: nat, task: TaskId)
    requires IsRun(ws, es) && i < |es|
    ensures Ran(ws, es, i) == Some(task) <==>
      && es[i].Fire?
      && ws[i].queue[es[i].f].live
      && exists j: nat :: LatestSchedule(ws, es, j, i) && es[j].task == task && WantedTime(ws, es, j) <= ws[i].now
  {
    HoldsLatestSchedule(ws, es, i);
    if Ran(ws, es, i) == Some(task) {
      var j: nat :| LatestSchedule(ws, es, j, i);
      assert es[j].task == task && WantedTime(ws, es, j) <= ws[i].now;
    }
  }

  /** Each call of Schedule leads to at most one run of its task. */
  lemma RunsAtMostOnce(ws: seq<World>, es: seq<Event>, i: nat, k: nat)
    requires IsRun(ws, es) && i < |es| && k < |es|
    requires Ran(ws, es, i).Some? && Ran(ws, es, i) == Ran(ws, es, k)
    // Every Schedule brings a task of its own.
    requires forall a, b :: 0 <= a < b < |es| && es[a].Schedule? && es[b].Schedule? ==> es[a].task != es[b].task
    ensures i == k
  {
    var task := Ran(ws, es, i).value;
    RunsExactlyTheLatest(ws, es, i, task);
    RunsExactlyTheLatest(ws, es, k, task);
    var a: nat :| LatestSchedule(ws, es, a, i) && es[a].task == task;
    var b: nat :| LatestSchedule(ws, es, b, k) && es[b].task == task;
    assert a == b;
  }

  /** Without discarded functors, a scheduled task always has a functor on its way. */
  lemma {:induction false} AlwaysArmed(ws: seq<World>, es: seq<Event>, i: nat)
    requires IsRun(ws, es) && i < |ws|
    requires forall m :: 0 <= m < i ==> !es[m].Drop?
    ensures Linked(ws[i]) && Armed(ws[i])
  {
    AlwaysLinked(ws, es, i);
    if i > 0 {
      AlwaysArmed(ws, es, i - 1);
      StepKeepsArmed(ws[i - 1], es[i - 1]);
    }
  }

  ghost predicate IsQuiet(e: Event) {
    e.Tick? || e.Fire? || e.Move?
  }

  /** A live functor is called at step `i`. */
  ghost predicate FiresLive(ws: seq<World>, es: seq<Event>, i: nat)
    requires IsRun(ws, es)
  {
    i < |es| && es[i].Fire? && ws[i].queue[es[i].f].live
  }

  /** Left alone after an early firing, the alarm keeps a functor posted for exactly its time. */
  lemma {:induction false} WaitsForExactTime(ws: seq<World>, es: seq<Event>, a: nat, i: nat)
    requires IsRun(ws, es) && a < i <= |es|
    requires forall m :: a <= m < i ==> IsQuiet(es[m])
    requires FiresLive(ws, es, a) && ws[a].alarm.task.Some?
    requires forall m :: a <= m < i ==> Ran(ws, es, m).None?
    ensures ws[i].alarm.task == ws[a].alarm.task
    ensures ws[i].alarm.nextFire == ws[i].alarm.alarmTime
  {
    AlwaysLinked(ws, es, i - 1);
    assert Ran(ws, es, i - 1).None?;
    if i > a + 1 {
      WaitsForExactTime(ws, es, a, i - 1);
    }
  }

  /** With no further client calls, the second firing of a live functor runs the task at the latest. */
  lemma TwoFiringsRunTheTask(ws: seq<World>, es: seq<Event>, a: nat, b: nat)
    requires IsRun(ws, es) && a < b < |es|
    requires forall m :: a <= m <= b ==> IsQuiet(es[m])
    requires FiresLive(ws, es, a) && FiresLive(ws, es, b)
    requires ws[a].alarm.task.Some?
    ensures exists r :: a <= r <= b && Ran(ws, es, r) == ws[a].alarm.task
  {
    AlwaysLinked(ws, es, b);
    if forall m :: a <= m < b ==> Ran(ws, es, m).None? {
      WaitsForExactTime(ws, es, a, b);
      assert Ran(ws, es, b) == ws[a].alarm.task;
    } else {
      FirstRunIsTheTask(ws, es, a, b);
    }
  }

  lemma {:induction false} FirstRunIsTheTask(ws: seq<World>, es: seq<Event>, a: nat, b: nat)
    requires IsRun(ws, es) && a < b <= |es|
    requires forall m :: a <= m < b ==> IsQuiet(es[m])
    requires ws[a].alarm.task.Some?
    requires exists m :: a <= m < b && Ran(ws, es, m).Some?
    ensures exists r :: a <= r < b && Ran(ws, es, r) == ws[a].alarm.task
    decreases b - a
  {
    if Ran(ws, es, a).None? {
      assert ws[a + 1].alarm.task == ws[a].alarm.task;
      FirstRunIsTheTask(ws, es, a + 1, b);
    }
  }

  /**
   A task runner that has called everything due leaves no task overdue by more than the
   longest lag of the run between the alarm's reading of the clock and its own.
   */
  lemma {:induction false} NothingOverdue(ws: seq<World>, es: seq<Event>, i: nat, limit: nat)
    requires IsRun(ws, es) && i < |ws|
    requires forall m :: 0 <= m < i ==> !es[m].Drop? && LagsAtMost(es[m], limit)
    requires forall f :: f in ws[i].queue ==> ws[i].now < ws[i].queue[f].due
    ensures ws[i].alarm.task.Some? ==> ws[i].now < ws[i].alarm.alarmTime + limit
  {
    AlwaysArmed(ws, es, i);
    AlwaysPrompt(ws, es, i, limit);
  }

  lemma {:induction false} AlwaysPrompt(ws: seq<World>, es: seq<Event>, i: nat, limit: nat)
    requires IsRun(ws, es) && i < |ws|
    requires forall m :: 0 <= m < i ==> LagsAtMost(es[m], limit)
    ensures Prompt(ws[i], limit)
  {
    if i > 0 {
      AlwaysPrompt(ws, es, i - 1, limit);
      AlwaysLinked(ws, es, i - 1);
      StepKeepsPrompt(ws[i - 1], es[i - 1], limit);
    }
  }

  /** Once the alarm is destroyed, nothing in the task runner's queue can reach it again. */
  lemma {:induction false} SilentAfterDestroy(ws: seq<World>, es: seq<Event>, d: nat, i: nat)
    requires IsRun(ws, es) && d < i <= |es| && es[d].Destroy?
    ensures !ws[i].alarm.alive
    ensures forall f :: f in ws[i].queue ==> !ws[i].queue[f].live
    ensures i < |es| ==> Ran(ws, es, i).None?
  {
    AlwaysLinked(ws, es, i);
    if i > d + 1 {
      SilentAfterDestroy(ws, es, d, i - 1);
    }
  }

  /** A live functor was posted for `time` or earlier. */
  ghost predicate WakesBy(w: World, time: Time) {
    exists f :: f in w.queue && w.queue[f].live && w.alarm.nextFire <= time
  }

  /** The outstanding Schedule asks for a time that has not come. */
  ghost predicate IsEarly(ws: seq<World>, es: seq<Event>, i: nat)
    requires IsRun(ws, es)
  {
    exists j: nat :: LatestSchedule(ws, es, j, i) && WantedTime(ws, es, j) > ws[i].now
  }

  /** Step `i` posts a functor for `time`; every other functor in the queue is dead. */
  ghost predicate Posts(ws: seq<World>, es: seq<Event>, i: nat, time: Time, lag: nat)
    requires IsRun(ws, es) && i < |es|
  {
    var f, after := ws[i].nextId, ws[i + 1];
    && f in after.queue && after.queue[f] == Posted(time + lag, true)
    && after.alarm.nextFire == time && after.nextId == f + 1 && after.now == ws[i].now + lag
    && forall g :: g in after.queue && g != f ==> !after.queue[g].live
  }

  lemma SchedulePosts(ws: seq<World>, es: seq<Event>, i: nat)
    requires IsRun(ws, es) && i < |es| && es[i].Schedule?
    ensures var time := WantedTime(ws, es, i);
            && (Posts(ws, es, i, time, es[i].lag) <==> !WakesBy(ws[i], time))
            && (WakesBy(ws[i], time) ==> ws[i + 1] == ws[i].(alarm := ws[i + 1].alarm))
            && ws[i + 1].queue.Keys == ws[i].queue.Keys + if WakesBy(ws[i], time) then {} else {ws[i].nextId}
  {
    var w, time := ws[i], WantedTime(ws, es, i);
    AlwaysLinked(ws, es, i);
    assert WakesBy(w, time) <==> w.alarm.queued.Some? && w.alarm.nextFire <= time by {
      if w.alarm.queued.Some? {
        assert w.queue[w.alarm.queued.value].live;
      }
    }
    if w.alarm.queued.Some? {
      CancelReachesFunctor(w, w.alarm.queued.value);
    }
  }

  lemma FirePosts(ws: seq<World>, es: seq<Event>, i: nat)
    requires IsRun(ws, es) && i < |es| && es[i].Fire?
    ensures ws[i + 1].queue.Keys - {ws[i].nextId} == ws[i].queue.Keys - {es[i].f}
    ensures ws[i].nextId in ws[i + 1].queue <==> FiresLive(ws, es, i) && IsEarly(ws, es, i)
    ensures forall j: nat :: LatestSchedule(ws, es, j, i) && FiresLive(ws, es, i) && WantedTime(ws, es, j) > ws[i].now ==>
              Posts(ws, es, i, WantedTime(ws, es, j), es[i].lag)
  {
    AlwaysLinked(ws, es, i);
    HoldsLatestSchedule(ws, es, i);
    assert IsEarly(ws, es, i) ==> ws[i].alarm.task.Some?;
  }

  /**
   In every run a Schedule posts a functor for exactly its time, if and only if none is on its
   way that fires by then; a functor that is called posts one again, if and only if the time of
   the outstanding Schedule has not come; and nothing else that the alarm does posts one.
   */
  lemma PostsIffNeeded(ws: seq<World>, es: seq<Event>, i: nat)
    requires IsRun(ws, es) && i < |es| && !es[i].Move?
    ensures ws[i].nextId in ws[i + 1].queue <==>
              || (es[i].Schedule? && !WakesBy(ws[i], WantedTime(ws, es, i)))
              || (FiresLive(ws, es, i) && IsEarly(ws, es, i))
    ensures es[i].Schedule? && ws[i].nextId in ws[i + 1].queue ==> Posts(ws, es, i, WantedTime(ws, es, i), es[i].lag)
    ensures forall j: nat :: LatestSchedule(ws, es, j, i) && es[i].Fire? && ws[i].nextId in ws[i + 1].queue ==>
              Posts(ws, es, i, WantedTime(ws, es, j), es[i].lag)
    ensures es[i].Tick? || es[i].Cancel? ==> ws[i + 1].queue == ws[i].queue
    ensures forall f :: f in ws[i].queue && f in ws[i + 1].queue ==> ws[i + 1].queue[f].due == ws[i].queue[f].due
  {
    AlwaysLinked(ws, es, i);
    if es[i].Schedule? {
      SchedulePosts(ws, es, i);
    } else if es[i].Fire? {
      FirePosts(ws, es, i);
      HoldsLatestSchedule(ws, es, i);
    }
  }

  /** The task runner discards the alarm's live functor at step `m`. */
  ghost predicate Discards(ws: seq<World>, es: seq<Event>, m: nat)
    requires IsRun(ws, es)
  {
    m < |es| && es[m].Drop? && ws[m].queue[es[m].f].live
  }

  /**
   A scheduled task keeps its wake-up exactly as long as the task runner discards no live
   functor after the Schedule.  (A later Schedule posts a new one.)
   */
  lemma {:induction false} ArmedUnlessDiscarded(ws: seq<World>, es: seq<Event>, j: nat, i: nat)
    requires IsRun(ws, es) && LatestSchedule(ws, es, j, i)
    ensures Armed(ws[i]) <==> forall m :: j < m < i ==> !Discards(ws, es, m)
    ensures !Armed(ws[i]) ==> ws[i].alarm.queued.None?
  {
    HoldsLatestSchedule(ws, es, i);
    AlwaysLinked(ws, es, i - 1);
    if i > j + 1 {
      assert LatestSchedule(ws, es, j, i - 1);
      ArmedUnlessDiscarded(ws, es, j, i - 1);
      HoldsLatestSchedule(ws, es, i - 1);
      assert !IsClientCall(es[i - 1]) && Ran(ws, es, i - 1).None?;
      assert Discards(ws, es, i - 1) ==> !Armed(ws[i]);
    }
  }

  /** A run that loses its wake-up: the task runner discards the functor of a scheduled task. */
  lemma DiscardedFunctorLosesTask()
    ensures exists ws: seq<World>, es: seq<Event> :: IsRun(ws, es) && !Armed(ws[|es|])
  {
    var w0 := Initial(0);
    var w1 := Step(w0, Schedule(7, 5, 0)).world;
    var w2 := Step(w1, Drop(0)).world;
    var ws, es := [w0, w1, w2], [Schedule(7, 5, 0), Drop(0)];
    assert IsRun(ws, es) && !Armed(ws[|es|]);
  }
}

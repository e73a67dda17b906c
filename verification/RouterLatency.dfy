/** How soon the router and its alarm serve a sender that is due. */
module RouterLatency {
  import opened Common
  import opened RouterSpec
  import opened RouterProofs
  import A = AlarmSpec
  import AlarmProofs

  /** The task runner reads the clock at most `limit` later than its caller. */
  ghost predicate LagsAtMost(e: Event, limit: nat) {
    match e
    case RequestRtcp(_, lag) => lag <= limit
    case RequestRtp(_, lag) => lag <= limit
    case RunTask(_, lag, timing) => lag <= limit && timing.lag <= limit
    case _ => true
  }

  lemma ScheduleKeepsPrompt(cfg: Config, r: Router, lag: nat, limit: nat)
    requires A.Linked(r.world) && A.Prompt(r.world, limit) && r.world.alarm.alive && lag <= limit
    ensures A.Prompt(ScheduleNextBurst(cfg, r, lag).world, limit)
  {
    var next := NextBurstTime(r.senders, r.lastBurst + cfg.interval);
    var e := if next == NEVER then A.Cancel else A.Schedule(BURST_TASK, next, lag);
    AlarmProofs.StepKeepsPrompt(r.world, e, limit);
  }

  lemma StepKeepsPrompt(cfg: Config, r: Router, e: Event, limit: nat)
    requires Inv(cfg, r) && A.Prompt(r.world, limit) && Enabled(r, e) && LagsAtMost(e, limit)
    ensures A.Prompt(Step(cfg, r, e).world, limit)
  {
    match e
    case RequestRtcp(ssrc, lag) =>
      var i := Find(r.senders, ssrc);
      ScheduleKeepsPrompt(cfg, r.(senders := r.senders[i := r.senders[i].(nextRtcp := IMMEDIATELY)]), lag, limit);
    case RequestRtp(ssrc, lag) =>
      var i := Find(r.senders, ssrc);
      ScheduleKeepsPrompt(cfg, r.(senders := r.senders[i := r.senders[i].(nextRtp := IMMEDIATELY)]), lag, limit);
    case RunTask(f, lag, timing) =>
      var fired := A.Step(r.world, A.Fire(f, lag));
      AlarmProofs.StepKeepsLinked(r.world, A.Fire(f, lag));
      AlarmProofs.StepKeepsPrompt(r.world, A.Fire(f, lag), limit);
      if fired.ran.Some? {
        var r1 := Transmit(cfg, AtBurst(r, fired.world, timing), timing.answers, timing.spent);
        assert A.Linked(r1.world) && A.Prompt(r1.world, limit);
        ScheduleKeepsPrompt(cfg, r1, timing.lag, limit);
      }
    case MoveTask(f) => AlarmProofs.StepKeepsPrompt(r.world, A.Move(f), limit);
    case _ =>
  }

  lemma {:induction false} AlwaysPrompt(cfg: Config, rs: seq<Router>, es: seq<Event>, i: nat, limit: nat)
    requires IsRun(cfg, rs, es) && i < |rs|
    requires forall m :: 0 <= m < i ==> LagsAtMost(es[m], limit)
    ensures A.Prompt(rs[i].world, limit)
  {
    if i > 0 {
      AlwaysPrompt(cfg, rs, es, i - 1, limit);
      AlwaysInv(cfg, rs, es, i - 1);
      StepKeepsPrompt(cfg, rs[i - 1], es[i - 1], limit);
    }
  }

  /** The task runner has called everything that is due. */
  ghost predicate CaughtUp(r: Router) {
    forall f :: f in r.world.queue ==> r.world.now < r.world.queue[f].due
  }

  // ----- a sender that is due, until there is a burst -----

  /** What a sender may be due for. */
  datatype Kind = Rtcp | Rtp

  ghost function DueFor(e: SenderEntry, kind: Kind): Time {
    if kind.Rtcp? then e.nextRtcp else e.nextRtp
  }

  /** Sender `ssrc` is registered and due no later than `d`. */
  ghost predicate IsDueBy(s: seq<SenderEntry>, ssrc: Ssrc, kind: Kind, d: Time) {
    exists k :: 0 <= k < |s| && s[k].ssrc == ssrc && DueFor(s[k], kind) <= d
  }

  lemma DueAfterCreation(s: seq<SenderEntry>, created: Ssrc, ssrc: Ssrc, kind: Kind, d: Time)
    requires IsDueBy(s, ssrc, kind, d)
    ensures IsDueBy(Insert(s, SenderEntry(created, NEVER, NEVER)), ssrc, kind, d)
  {
    var k :| 0 <= k < |s| && s[k].ssrc == ssrc && DueFor(s[k], kind) <= d;
    InsertedElements(s, SenderEntry(created, NEVER, NEVER));
    assert s[k] in s + [SenderEntry(created, NEVER, NEVER)];
    assert s[k] in Insert(s, SenderEntry(created, NEVER, NEVER));
  }

  lemma DueAfterDestruction(s: seq<SenderEntry>, i: nat, ssrc: Ssrc, kind: Kind, d: Time)
    requires IsDueBy(s, ssrc, kind, d) && i < |s| && s[i].ssrc != ssrc
    ensures IsDueBy(s[..i] + s[i + 1..], ssrc, kind, d)
  {
    var k :| 0 <= k < |s| && s[k].ssrc == ssrc && DueFor(s[k], kind) <= d;
    assert (s[..i] + s[i + 1..])[if k < i then k else k - 1] == s[k];
  }

  lemma DueAfterRequest(s: seq<SenderEntry>, i: nat, entry: SenderEntry, ssrc: Ssrc, kind: Kind, d: Time)
    requires IsDueBy(s, ssrc, kind, d) && i < |s| && entry.ssrc == s[i].ssrc
    requires DueFor(entry, kind) <= Max(DueFor(s[i], kind), d)
    ensures IsDueBy(s[i := entry], ssrc, kind, d)
  {
    var k :| 0 <= k < |s| && s[k].ssrc == ssrc && DueFor(s[k], kind) <= d;
    assert s[i := entry][k].ssrc == ssrc && DueFor(s[i := entry][k], kind) <= d;
  }

  /** Nothing but a burst or its destruction makes a due sender stop being due. */
  lemma DueUntilBurst(cfg: Config, r: Router, e: Event, ssrc: Ssrc, kind: Kind, d: Time)
    requires Enabled(r, e) && e != SenderDestroyed(ssrc)
    requires IMMEDIATELY <= d && IsDueBy(r.senders, ssrc, kind, d)
    requires Step(cfg, r, e).log == r.log
    ensures IsDueBy(Step(cfg, r, e).senders, ssrc, kind, d)
    ensures Step(cfg, r, e).lastBurst == r.lastBurst
  {
    match e
    case SenderCreated(created) => DueAfterCreation(r.senders, created, ssrc, kind, d);
    case SenderDestroyed(gone) => DueAfterDestruction(r.senders, Find(r.senders, gone), ssrc, kind, d);
    case RequestRtcp(x, lag) =>
      var i := Find(r.senders, x);
      DueAfterRequest(r.senders, i, r.senders[i].(nextRtcp := IMMEDIATELY), ssrc, kind, d);
    case RequestRtp(x, lag) =>
      var i := Find(r.senders, x);
      DueAfterRequest(r.senders, i, r.senders[i].(nextRtp := IMMEDIATELY), ssrc, kind, d);
    case RunTask(f, lag, timing) => LogGrowsByBurst(cfg, r, f, lag, timing);
    case _ =>
  }

  /** The alarm will fire by `d`: a functor is posted for it, and if it is early so is the next. */
  ghost predicate FiresBy(r: Router, d: Time) {
    && r.world.alarm.task.Some? && r.world.alarm.queued.Some?
    && r.world.alarm.nextFire <= d
    && r.world.alarm.alarmTime <= Max(r.world.now, d)
  }

  /** What the invariant promises of a sender that is due by `d`. */
  lemma PlannedBy(cfg: Config, r: Router, ssrc: Ssrc, kind: Kind, d: Time)
    requires Inv(cfg, r) && IsDueBy(r.senders, ssrc, kind, d) && d < NEVER && r.lastBurst + cfg.interval <= d
    ensures r.world.alarm.task.Some? && r.world.alarm.queued.Some?
    ensures r.world.alarm.nextFire <= r.world.alarm.alarmTime <= Max(r.world.now, d)
  {
    MinDueIsMin(r.senders);
  }

  /** Planning again never puts off a functor that is already posted. */
  lemma ScheduleKeepsFiring(cfg: Config, r: Router, lag: nat, d: Time)
    requires r.world.alarm.task.Some? && r.world.alarm.queued.Some? && r.world.alarm.nextFire <= d
    ensures ScheduleNextBurst(cfg, r, lag).world.alarm.nextFire <= d
  {
  }

  /** As long as there is no burst, no event puts off the firing. */
  lemma StepKeepsFiring(cfg: Config, r: Router, e: Event, d: Time)
    requires Inv(cfg, r) && Enabled(r, e) && FiresBy(r, d)
    requires Step(cfg, r, e).log == r.log
    ensures Step(cfg, r, e).world.alarm.nextFire <= d
  {
    match e
    case RequestRtcp(ssrc, lag) =>
      var i := Find(r.senders, ssrc);
      ScheduleKeepsFiring(cfg, r.(senders := r.senders[i := r.senders[i].(nextRtcp := IMMEDIATELY)]), lag, d);
    case RequestRtp(ssrc, lag) =>
      var i := Find(r.senders, ssrc);
      ScheduleKeepsFiring(cfg, r.(senders := r.senders[i := r.senders[i].(nextRtp := IMMEDIATELY)]), lag, d);
    case RunTask(f, lag, timing) => LogGrowsByBurst(cfg, r, f, lag, timing);
    case _ =>
  }

  /** Event `m` makes a burst. */
  ghost predicate IsBurst(rs: seq<Router>, m: nat)
    requires m + 1 < |rs|
  {
    rs[m + 1].log != rs[m].log
  }

  /** There is no burst and the sender is not destroyed from state `i` to state `j`. */
  ghost predicate Waits(rs: seq<Router>, es: seq<Event>, i: nat, j: nat, ssrc: Ssrc)
    requires |rs| == |es| + 1
  {
    i <= j < |rs| && forall m :: i <= m < j ==> es[m] != SenderDestroyed(ssrc) && !IsBurst(rs, m)
  }

  /** When a sender due by `d` can be served at the latest: now, by the pacing, or at `d`. */
  ghost function ServiceTime(cfg: Config, r: Router, d: Time): Time {
    Max(r.world.now, Max(r.lastBurst + cfg.interval, d))
  }

  /** The sender is due by `t` and the alarm will fire by then, as the pacing allows. */
  ghost predicate IsPlanned(cfg: Config, r: Router, ssrc: Ssrc, kind: Kind, t: Time) {
    IsDueBy(r.senders, ssrc, kind, t) && r.lastBurst + cfg.interval <= t && FiresBy(r, t)
  }

  lemma StepKeepsServed(cfg: Config, r: Router, e: Event, ssrc: Ssrc, kind: Kind, t: Time)
    requires Inv(cfg, r) && Enabled(r, e) && Inv(cfg, Step(cfg, r, e))
    requires e != SenderDestroyed(ssrc) && Step(cfg, r, e).log == r.log
    requires IMMEDIATELY <= t < NEVER && IsPlanned(cfg, r, ssrc, kind, t)
    ensures IsPlanned(cfg, Step(cfg, r, e), ssrc, kind, t)
  {
    DueUntilBurst(cfg, r, e, ssrc, kind, t);
    StepKeepsFiring(cfg, r, e, t);
    PlannedBy(cfg, Step(cfg, r, e), ssrc, kind, t);
  }

  lemma ServedFromStart(cfg: Config, r: Router, ssrc: Ssrc, kind: Kind, d: Time)
    requires Inv(cfg, r) && IsDueBy(r.senders, ssrc, kind, d) && ServiceTime(cfg, r, d) < NEVER
    ensures IsPlanned(cfg, r, ssrc, kind, ServiceTime(cfg, r, d))
  {
    var t := ServiceTime(cfg, r, d);
    assert IsDueBy(r.senders, ssrc, kind, t);
    PlannedBy(cfg, r, ssrc, kind, t);
  }

  lemma ServedAfter(cfg: Config, rs: seq<Router>, es: seq<Event>, m: nat, ssrc: Ssrc, kind: Kind, t: Time)
    requires IsRun(cfg, rs, es) && m < |es| && Waits(rs, es, m, m + 1, ssrc)
    requires IMMEDIATELY <= t < NEVER && IsPlanned(cfg, rs[m], ssrc, kind, t)
    ensures IsPlanned(cfg, rs[m + 1], ssrc, kind, t)
  {
    var r, e := rs[m], es[m];
    assert rs[m + 1] == Step(cfg, r, e) && e != SenderDestroyed(ssrc) && !IsBurst(rs, m);
    AlwaysInv(cfg, rs, es, m);
    AlwaysInv(cfg, rs, es, m + 1);
    StepKeepsServed(cfg, r, e, ssrc, kind, t);
  }

  lemma WaitsUntilLast(rs: seq<Router>, es: seq<Event>, i: nat, j: nat, ssrc: Ssrc)
    requires |rs| == |es| + 1 && i < j && Waits(rs, es, i, j, ssrc)
    ensures Waits(rs, es, i, j - 1, ssrc) && Waits(rs, es, j - 1, j, ssrc)
  {
  }

  /** While a due sender waits, the alarm goes on to fire by its service time. */
  lemma {:induction false} KeepsServed(cfg: Config, rs: seq<Router>, es: seq<Event>, i: nat, j: nat,
                                       ssrc: Ssrc, kind: Kind, t: Time)
    requires IsRun(cfg, rs, es) && Waits(rs, es, i, j, ssrc)
    requires IMMEDIATELY <= t < NEVER && IsPlanned(cfg, rs[i], ssrc, kind, t)
    ensures IsPlanned(cfg, rs[j], ssrc, kind, t)
    decreases j
  {
    if i < j {
      WaitsUntilLast(rs, es, i, j, ssrc);
      KeepsServed(cfg, rs, es, i, j - 1, ssrc, kind, t);
      ServedAfter(cfg, rs, es, j - 1, ssrc, kind, t);
    }
  }

  /**
   As long as there is no burst at all: a sender that is due and still waits when the task
   runner has caught up has not waited past its service time by more than the longest lag of
   the run between two readings of the clock.
   */
  lemma NobodyWaits(cfg: Config, rs: seq<Router>, es: seq<Event>, i: nat, j: nat,
                    ssrc: Ssrc, kind: Kind, d: Time, limit: nat)
    requires IsRun(cfg, rs, es) && Waits(rs, es, i, j, ssrc)
    requires forall m :: 0 <= m < j ==> LagsAtMost(es[m], limit)
    requires IsDueBy(rs[i].senders, ssrc, kind, d) && CaughtUp(rs[j])
    ensures rs[j].world.now < ServiceTime(cfg, rs[i], d) + limit
  {
    if ServiceTime(cfg, rs[i], d) < NEVER {
      AlwaysInv(cfg, rs, es, i);
      ServedFromStart(cfg, rs[i], ssrc, kind, d);
      KeepsServed(cfg, rs, es, i, j, ssrc, kind, ServiceTime(cfg, rs[i], d));
      AlwaysPrompt(cfg, rs, es, j, limit);
      AlwaysInv(cfg, rs, es, j);
    }
  }

  // ----- a sender that is due, through bursts for others -----

  /** The first burst from state `i` on, if there is one before state `j`. */
  lemma {:induction false} FirstBurst(rs: seq<Router>, i: nat, j: nat) returns (m: nat)
    requires i <= j < |rs|
    ensures i <= m <= j
    ensures forall k :: i <= k < m ==> !IsBurst(rs, k)
    ensures m < j ==> IsBurst(rs, m)
    decreases j - i
  {
    m := i;
    if i < j && !IsBurst(rs, i) {
      m := FirstBurst(rs, i + 1, j);
    }
  }

  lemma {:induction false} StillDue(cfg: Config, rs: seq<Router>, es: seq<Event>, i: nat, j: nat,
                                    ssrc: Ssrc, kind: Kind, d: Time)
    requires IsRun(cfg, rs, es) && Waits(rs, es, i, j, ssrc)
    requires IMMEDIATELY <= d && IsDueBy(rs[i].senders, ssrc, kind, d)
    ensures IsDueBy(rs[j].senders, ssrc, kind, d)
    decreases j
  {
    if i < j {
      WaitsUntilLast(rs, es, i, j, ssrc);
      StillDue(cfg, rs, es, i, j - 1, ssrc, kind, d);
      DueAtNext(cfg, rs, es, j - 1, ssrc, kind, d);
    }
  }

  lemma DueAtNext(cfg: Config, rs: seq<Router>, es: seq<Event>, m: nat, ssrc: Ssrc, kind: Kind, d: Time)
    requires IsRun(cfg, rs, es) && m < |es| && Waits(rs, es, m, m + 1, ssrc)
    requires IMMEDIATELY <= d && IsDueBy(rs[m].senders, ssrc, kind, d)
    ensures IsDueBy(rs[m + 1].senders, ssrc, kind, d)
  {
    assert !IsBurst(rs, m);
    DueUntilBurst(cfg, rs[m], es[m], ssrc, kind, d);
  }

  /** A burst that comes before the sender is due leaves it due as it was. */
  lemma EarlyBurstChangesNothing(cfg: Config, s: seq<SenderEntry>, answers: seq<Answer>, t: Time,
                                 ssrc: Ssrc, kind: Kind, d: Time)
    requires |s| == |answers| && IsDueBy(s, ssrc, kind, d) && !IsDueBy(s, ssrc, kind, t)
    ensures IsDueBy(AfterBurst(cfg, s, answers, t), ssrc, kind, d) && t < d
  {
    var k :| 0 <= k < |s| && s[k].ssrc == ssrc && DueFor(s[k], kind) <= d;
    assert DueFor(s[k], kind) > t;
    assert DueFor(AfterBurst(cfg, s, answers, t)[k], kind) == DueFor(s[k], kind);
  }

  /** Every burst up to state `j` is over, and the next one planned, within `busy`. */
  ghost predicate BusyAtMost(rs: seq<Router>, j: nat, busy: nat)
    requires j < |rs|
  {
    forall m :: 0 <= m < j && IsBurst(rs, m) ==> rs[m + 1].world.now <= rs[m + 1].lastBurst + busy
  }

  /**
   By when a sender due by `d` is served.  One that is due already needs the next burst.  One
   that is due later may find that a burst for others has just begun before its time, and then
   has to wait until that burst is over and for the pacing.
   */
  ghost function LatestService(cfg: Config, r: Router, d: Time, busy: nat): Time {
    if d <= r.world.now then ServiceTime(cfg, r, d)
    else Max(ServiceTime(cfg, r, d), d + Max(cfg.interval, busy))
  }

  /** Event `m` makes a burst for which the sender is due. */
  ghost predicate BurstWhenDue(rs: seq<Router>, m: nat, ssrc: Ssrc, kind: Kind)
    requires m + 1 < |rs|
  {
    IsBurst(rs, m) && IsDueBy(rs[m].senders, ssrc, kind, rs[m + 1].lastBurst)
  }

  /** The first burst from `i` on either finds the sender due or leaves it due as it was. */
  lemma AtFirstBurst(cfg: Config, rs: seq<Router>, es: seq<Event>, i: nat, m: nat, ssrc: Ssrc, kind: Kind, d: Time)
    requires IsRun(cfg, rs, es) && m < |es| && Waits(rs, es, i, m, ssrc) && IsBurst(rs, m)
    requires IsDueBy(rs[i].senders, ssrc, kind, d)
    ensures BurstWhenDue(rs, m, ssrc, kind) || (IsDueBy(rs[m + 1].senders, ssrc, kind, d) && rs[m + 1].lastBurst < d)
    ensures d <= rs[i].world.now ==> BurstWhenDue(rs, m, ssrc, kind)
  {
    var d', t := Max(d, IMMEDIATELY), rs[m + 1].lastBurst;
    assert IsDueBy(rs[i].senders, ssrc, kind, d');
    StillDue(cfg, rs, es, i, m, ssrc, kind, d');
    AfterTheBurst(cfg, rs, es, m);
    BurstIsLater(cfg, rs, es, m);
    ClockNeverGoesBack(cfg, rs, es, i, m);
    if IsDueBy(rs[m].senders, ssrc, kind, t) {
    } else {
      EarlyBurstChangesNothing(cfg, rs[m].senders, es[m].timing.answers, t, ssrc, kind, d');
    }
  }

  lemma {:induction false} ClockNeverGoesBack(cfg: Config, rs: seq<Router>, es: seq<Event>, i: nat, j: nat)
    requires IsRun(cfg, rs, es) && i <= j < |rs|
    ensures rs[i].world.now <= rs[j].world.now
    decreases j
  {
    if i < j {
      ClockNeverGoesBack(cfg, rs, es, i, j - 1);
      ClockAtNext(cfg, rs, es, j - 1);
    }
  }

  lemma ClockAtNext(cfg: Config, rs: seq<Router>, es: seq<Event>, m: nat)
    requires IsRun(cfg, rs, es) && m < |es|
    ensures rs[m].world.now <= rs[m + 1].world.now
  {
    AlwaysLinked(cfg, rs, es, m);
    if es[m].RunTask? {
      AlarmProofs.StepKeepsLinked(rs[m].world, A.Fire(es[m].f, es[m].lag));
    }
  }

  /** Some burst comes by the service time. */
  lemma NextBurstComes(cfg: Config, rs: seq<Router>, es: seq<Event>, i: nat, j: nat,
                       ssrc: Ssrc, kind: Kind, d: Time, limit: nat)
      returns (m: nat)
    requires IsRun(cfg, rs, es) && i <= j < |rs|
    requires forall k :: 0 <= k < j ==> LagsAtMost(es[k], limit)
    requires forall k :: i <= k < j ==> es[k] != SenderDestroyed(ssrc)
    requires IsDueBy(rs[i].senders, ssrc, kind, d)
    requires CaughtUp(rs[j]) && ServiceTime(cfg, rs[i], d) + limit <= rs[j].world.now
    ensures i <= m < j && IsBurst(rs, m) && Waits(rs, es, i, m, ssrc)
  {
    m := FirstBurst(rs, i, j);
    assert Waits(rs, es, i, m, ssrc);
    if m == j {
      NobodyWaits(cfg, rs, es, i, j, ssrc, kind, d, limit);
    }
  }

  /** A burst that begins before `d` does not put off the latest service. */
  lemma OthersDelayLittle(cfg: Config, r: Router, r': Router, d: Time, busy: nat)
    requires r'.lastBurst < d && r'.world.now <= r'.lastBurst + busy && r.world.now < d && cfg.Valid()
    ensures LatestService(cfg, r', d, busy) <= LatestService(cfg, r, d, busy)
  {
  }

  /**
   Bounded latency of the two classes together.  A sender that is due by `d` and is not
   destroyed has had a burst for which it was due, whatever bursts others got before, once the
   task runner has caught up with the time that LatestService gives and the longest lag.
   */
  lemma {:induction false} DueSenderGetsBurst(cfg: Config, rs: seq<Router>, es: seq<Event>, i: nat, j: nat,
                                              ssrc: Ssrc, kind: Kind, d: Time, limit: nat, busy: nat)
      returns (m: nat)
    requires IsRun(cfg, rs, es) && i <= j < |rs|
    requires (forall k :: 0 <= k < j ==> LagsAtMost(es[k], limit)) && BusyAtMost(rs, j, busy)
    requires forall k :: i <= k < j ==> es[k] != SenderDestroyed(ssrc)
    requires IsDueBy(rs[i].senders, ssrc, kind, d)
    requires CaughtUp(rs[j]) && LatestService(cfg, rs[i], d, busy) + limit <= rs[j].world.now
    ensures i <= m < j && BurstWhenDue(rs, m, ssrc, kind)
    decreases j - i
  {
    m := NextBurstComes(cfg, rs, es, i, j, ssrc, kind, d, limit);
    AtFirstBurst(cfg, rs, es, i, m, ssrc, kind, d);
    if !BurstWhenDue(rs, m, ssrc, kind) {
      OthersDelayLittle(cfg, rs[i], rs[m + 1], d, busy);
      m := DueSenderGetsBurst(cfg, rs, es, m + 1, j, ssrc, kind, d, limit, busy);
    }
  }

  /** What a burst does for a sender that is due: its report goes out; its media do as far as the budget goes. */
  ghost predicate IsServed(cfg: Config, s: seq<SenderEntry>, answers: seq<Answer>, b: Burst, ssrc: Ssrc, kind: Kind)
    requires |s| == |answers|
  {
    exists k :: 0 <= k < |s| && s[k].ssrc == ssrc && DueFor(s[k], kind) <= b.time
      && match kind {
           case Rtcp => answers[k].rtcp ==> ssrc in b.rtcp
           case Rtp => answers[k].rtp > 0 ==> ssrc in b.rtp || |b.rtp| == Max(0, cfg.maxPackets - |b.rtcp|)
         }
  }

  lemma DueIsServed(cfg: Config, s: seq<SenderEntry>, answers: seq<Answer>, t: Time, ssrc: Ssrc, kind: Kind)
    requires |s| == |answers| && SortedByPriority(s) && IsDueBy(s, ssrc, kind, t)
    ensures IsServed(cfg, s, answers, BurstAt(cfg, s, answers, t), ssrc, kind)
  {
    var b := BurstAt(cfg, s, answers, t);
    var k :| 0 <= k < |s| && s[k].ssrc == ssrc && DueFor(s[k], kind) <= t;
    match kind
    case Rtcp => RtcpIffDue(s, answers, t, |s|, k);
    case Rtp =>
      if answers[k].rtp > 0 {
        SentOrBudgetUsed(s, answers, t, cfg.maxPackets - |b.rtcp|, k);
      }
  }

  lemma SentOrBudgetUsed(s: seq<SenderEntry>, answers: seq<Answer>, t: Time, budget: int, k: nat)
    requires k < |s| == |answers| && SortedByPriority(s) && s[k].nextRtp <= t && answers[k].rtp > 0
    ensures var rtp := RtpSent(s, answers, t, budget, |s|); s[k].ssrc in rtp || |rtp| == Max(0, budget)
  {
    var rtp := RtpSent(s, answers, t, budget, |s|);
    if Served(s, answers, t, budget, k) {
      RtpSentByShare(s, answers, t, budget, |s|, k);
      CountInParts(rtp, [], s[k].ssrc);
    } else {
      RtpUsesBudget(s, answers, t, budget, |s|);
      DemandGrows(s, answers, t, k, |s|);
    }
  }

  /**
   In every run, a sender that is due by `d` and not destroyed is served in time: there is a
   burst for which it is due, in which its report is sent if it has one, and some of its media
   unless it has none or the whole budget went to others.
   */
  lemma DueSenderIsServed(cfg: Config, rs: seq<Router>, es: seq<Event>, i: nat, j: nat,
                          ssrc: Ssrc, kind: Kind, d: Time, limit: nat, busy: nat)
      returns (m: nat)
    requires IsRun(cfg, rs, es) && i <= j < |rs|
    requires (forall k :: 0 <= k < j ==> LagsAtMost(es[k], limit)) && BusyAtMost(rs, j, busy)
    requires forall k :: i <= k < j ==> es[k] != SenderDestroyed(ssrc)
    requires IsDueBy(rs[i].senders, ssrc, kind, d)
    requires CaughtUp(rs[j]) && LatestService(cfg, rs[i], d, busy) + limit <= rs[j].world.now
    ensures i <= m < j && BurstWhenDue(rs, m, ssrc, kind)
    ensures es[m].RunTask? && |es[m].timing.answers| == |rs[m].senders| && |rs[m + 1].log| == |rs[m].log| + 1
    ensures IsServed(cfg, rs[m].senders, es[m].timing.answers, rs[m + 1].log[|rs[m].log|], ssrc, kind)
  {
    m := DueSenderGetsBurst(cfg, rs, es, i, j, ssrc, kind, d, limit, busy);
    AfterTheBurst(cfg, rs, es, m);
    AlwaysSorted(cfg, rs, es, m);
    DueIsServed(cfg, rs[m].senders, es[m].timing.answers, rs[m + 1].lastBurst, ssrc, kind);
  }

  // ----- senders left out of a burst -----

  /** A due sender with packets none of which is sent is one whose turn did not come. */
  lemma UnsentIsUnserved(cfg: Config, s: seq<SenderEntry>, answers: seq<Answer>, t: Time, k: nat)
    requires k < |s| == |answers| && SortedByPriority(s)
    requires answers[k].rtp > 0 && s[k].ssrc !in BurstAt(cfg, s, answers, t).rtp
    ensures AfterBurst(cfg, s, answers, t)[k].nextRtp == s[k].nextRtp
    ensures AfterBurst(cfg, s, answers, t)[k].ssrc == s[k].ssrc
  {
    var b := BurstAt(cfg, s, answers, t);
    RtpSentByShare(s, answers, t, cfg.maxPackets - |b.rtcp|, |s|, k);
    CountInParts(b.rtp, [], s[k].ssrc);
  }

  /** A burst at event `i` for which sender `k` is due and has RTP packets, but sends none. */
  ghost predicate LeftOut(cfg: Config, rs: seq<Router>, es: seq<Event>, i: nat, k: nat)
    requires IsRun(cfg, rs, es)
  {
    && i < |es| && rs[i + 1].log != rs[i].log && es[i].RunTask?
    && k < |rs[i].senders| && es[i].timing.answers[k].rtp > 0
    && rs[i + 1].lastBurst >= rs[i].senders[k].nextRtp
    && forall b :: b in rs[i + 1].log[|rs[i].log|..] ==> rs[i].senders[k].ssrc !in b.rtp
  }

  /**
   In every run, a sender that a burst leaves out is still due after it, and unless it is
   destroyed it gets another turn in a burst within one interval, up to the task runner's lag.
   */
  lemma LeftOutGetsNextBurst(cfg: Config, rs: seq<Router>, es: seq<Event>, i: nat, k: nat, j: nat, limit: nat)
    requires IsRun(cfg, rs, es) && i < j < |rs| && LeftOut(cfg, rs, es, i, k)
    requires forall m :: 0 <= m < j ==> LagsAtMost(es[m], limit)
    requires forall m :: i < m < j ==> es[m] != SenderDestroyed(rs[i].senders[k].ssrc)
    ensures IsDueBy(rs[i + 1].senders, rs[i].senders[k].ssrc, Rtp, rs[i + 1].lastBurst)
    ensures CaughtUp(rs[j]) && Max(rs[i + 1].world.now, rs[i + 1].lastBurst + cfg.interval) + limit <= rs[j].world.now
            ==> exists m :: i < m < j && BurstWhenDue(rs, m, rs[i].senders[k].ssrc, Rtp)
  {
    var ssrc, t := rs[i].senders[k].ssrc, rs[i + 1].lastBurst;
    AfterTheBurst(cfg, rs, es, i);
    AlwaysSorted(cfg, rs, es, i);
    UnsentIsUnserved(cfg, rs[i].senders, es[i].timing.answers, t, k);
    assert rs[i + 1].senders[k].ssrc == ssrc && DueFor(rs[i + 1].senders[k], Rtp) <= t;
    LastBurstIsPast(cfg, rs, es, i + 1);
    if CaughtUp(rs[j]) && Max(rs[i + 1].world.now, t + cfg.interval) + limit <= rs[j].world.now {
      var busy := LongestBurst(rs, j);
      var m := DueSenderGetsBurst(cfg, rs, es, i + 1, j, ssrc, Rtp, t, limit, busy);
    }
  }

  /** Every run has a longest burst. */
  lemma {:induction false} LongestBurst(rs: seq<Router>, j: nat) returns (busy: nat)
    requires j < |rs|
    ensures BusyAtMost(rs, j, busy)
  {
    busy := 0;
    if j > 0 {
      busy := LongestBurst(rs, j - 1);
      busy := Max(busy, rs[j].world.now - rs[j].lastBurst);
    }
  }
}

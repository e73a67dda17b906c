/** A run in which a burst for another sender, just before its time, makes a sender wait for longer. */
module RouterDelay {
  import opened Common
  import opened RouterSpec
  import opened RouterProofs
  import opened RouterLatency
  import A = AlarmSpec

  const SHORT := Config(1, 10)

  ghost function TwoSenders(first: Time, second: Time): seq<SenderEntry> {
    [SenderEntry(1, NEVER, first), SenderEntry(2, NEVER, second)]
  }

  /** Neither sender has a packet; the first is to resume at `resume`. */
  ghost function Idle(resume: Time): BurstTiming {
    BurstTiming(0, [Answer(false, 0, resume), Answer(false, 0, NEVER)], 0, 0)
  }

  /** A router whose alarm is set for `next` by functor `newest`. */
  ghost function Armed(now: Time, next: Time, queue: map<A.FunctorId, A.Posted>, newest: nat,
                       senders: seq<SenderEntry>, lastBurst: Time, log: seq<Burst>): Router {
    Router(A.World(now, A.Alarm(true, Some(BURST_TASK), next, Some(newest), next), queue, newest + 1),
           senders, lastBurst, log)
  }

  const FIRST := Burst(0, [], [])
  const SECOND := Burst(24, [], [])

  /** The first sender asks at 0, is served and is to resume at 25; the second asks at 24. */
  ghost function States(): seq<Router> {
    [Initial(0),
     Initial(0).(senders := [SenderEntry(1, NEVER, NEVER)]),
     Initial(0).(senders := TwoSenders(NEVER, NEVER)),
     Armed(0, 0, map[0 := A.Posted(0, true)], 0, TwoSenders(IMMEDIATELY, NEVER), IMMEDIATELY, []),
     Armed(0, 25, map[1 := A.Posted(25, true)], 1, TwoSenders(25, NEVER), 0, [FIRST]),
     Armed(24, 25, map[1 := A.Posted(25, true)], 1, TwoSenders(25, NEVER), 0, [FIRST]),
     Armed(24, 24, map[1 := A.Posted(25, false), 2 := A.Posted(24, true)], 2, TwoSenders(25, IMMEDIATELY), 0, [FIRST]),
     Armed(24, 34, map[1 := A.Posted(25, false), 3 := A.Posted(34, true)], 3, TwoSenders(25, NEVER), 24, [FIRST, SECOND]),
     Armed(33, 34, map[1 := A.Posted(25, false), 3 := A.Posted(34, true)], 3, TwoSenders(25, NEVER), 24, [FIRST, SECOND]),
     Armed(33, 34, map[3 := A.Posted(34, true)], 3, TwoSenders(25, NEVER), 24, [FIRST, SECOND])]
  }

  ghost function Events(): seq<Event> {
    [SenderCreated(1), SenderCreated(2), RequestRtp(1, 0), RunTask(0, 0, Idle(25)), Tick(24),
     RequestRtp(2, 0), RunTask(2, 0, Idle(NEVER)), Tick(9), RunTask(1, 0, Idle(NEVER))]
  }

  lemma NextOfTwo(first: Time, second: Time, earliest: Time)
    requires first < NEVER && second <= NEVER
    ensures NextBurstTime(TwoSenders(first, second), earliest) == Max(Min(first, second), earliest)
  {
    var s := TwoSenders(first, second);
    assert s[1..] == [s[1]] && s[1..][1..] == [];
    assert MinDue(s[1..]) == Min(second, NEVER);
  }

  /** A burst in which nobody has anything to send. */
  lemma EmptyBurst(first: Time, second: Time, resume: Time, t: Time)
    requires t < NEVER
    ensures var s, answers := TwoSenders(first, second), Idle(resume).answers;
            && BurstAt(SHORT, s, answers, t) == Burst(t, [], [])
            && AfterBurst(SHORT, s, answers, t) == TwoSenders(if first <= t then resume else first,
                                                             if second <= t then NEVER else second)
  {
    var s, answers := TwoSenders(first, second), Idle(resume).answers;
    assert RtcpSent(s, answers, t, 1) == [] && RtcpSent(s, answers, t, 2) == [];
    assert RtpSent(s, answers, t, 1, 1) == [] + Copies(s[0].ssrc, 0) == [];
    assert RtpSent(s, answers, t, 1, 2) == [] + Copies(s[1].ssrc, 0) == [];
    assert Demand(s, answers, t, 0) == 0 && Demand(s, answers, t, 1) == 0;
  }

  ghost predicate IsStep(k: nat)
    requires k < 9
  {
    Enabled(States()[k], Events()[k]) && Step(SHORT, States()[k], Events()[k]) == States()[k + 1]
  }

  lemma Creations()
    ensures IsStep(0) && IsStep(1)
  {
    var s0 := SenderEntry(1, NEVER, NEVER);
    assert Insert([s0][1..], SenderEntry(2, NEVER, NEVER)) == [SenderEntry(2, NEVER, NEVER)];
  }

  lemma FirstRequest()
    ensures IsStep(2)
  {
    assert Find(TwoSenders(NEVER, NEVER), 1) == 0;
    assert TwoSenders(NEVER, NEVER)[0 := SenderEntry(1, NEVER, IMMEDIATELY)] == TwoSenders(IMMEDIATELY, NEVER);
    NextOfTwo(IMMEDIATELY, NEVER, IMMEDIATELY + 10);
  }

  lemma FirstBurstStep()
    ensures IsStep(3)
  {
    EmptyBurst(IMMEDIATELY, NEVER, 25, 0);
    NextOfTwo(25, NEVER, 10);
  }

  lemma SecondRequest()
    ensures IsStep(4) && IsStep(5)
  {
    assert Find(TwoSenders(25, NEVER)[1..], 2) == 0;
    assert TwoSenders(25, NEVER)[1 := SenderEntry(2, NEVER, IMMEDIATELY)] == TwoSenders(25, IMMEDIATELY);
    NextOfTwo(25, IMMEDIATELY, 10);
  }

  lemma SecondBurstStep()
    ensures IsStep(6)
  {
    EmptyBurst(25, IMMEDIATELY, NEVER, 24);
    NextOfTwo(25, NEVER, 34);
  }

  lemma LateTasks()
    ensures IsStep(7) && IsStep(8)
  {
  }

  lemma EveryStep(k: nat)
    requires k < 9
    ensures IsStep(k)
  {
    if k <= 1 {
      Creations();
    } else if k == 2 {
      FirstRequest();
    } else if k == 3 {
      FirstBurstStep();
    } else if k <= 5 {
      SecondRequest();
    } else if k == 6 {
      SecondBurstStep();
    } else {
      LateTasks();
    }
  }

  lemma RunFromSteps(rs: seq<Router>, es: seq<Event>)
    requires |rs| == |es| + 1 && rs[0] == Initial(0)
    requires forall k :: 0 <= k < |rs| ==> 0 <= rs[k].world.now <= 33
    requires forall k :: 0 <= k < |es| ==> Enabled(rs[k], es[k]) && Step(SHORT, rs[k], es[k]) == rs[k + 1]
    ensures IsRun(SHORT, rs, es)
  {
  }

  lemma Clocks(k: nat)
    requires k < 10
    ensures 0 <= States()[k].world.now <= 33
  {
  }

  lemma IsTheRun()
    ensures IsRun(SHORT, States(), Events())
  {
    var rs, es := States(), Events();
    forall k | 0 <= k < |rs|
      ensures 0 <= rs[k].world.now <= 33
    {
      Clocks(k);
    }
    forall k | 0 <= k < |es|
      ensures Enabled(rs[k], es[k]) && Step(SHORT, rs[k], es[k]) == rs[k + 1]
    {
      EveryStep(k);
    }
    RunFromSteps(rs, es);
  }

  /** No event lags, and no burst takes any time. */
  lemma NoDelays()
    ensures forall k :: 0 <= k < 9 ==> LagsAtMost(Events()[k], 0) && !Events()[k].SenderDestroyed?
    ensures BusyAtMost(States(), 9, 0)
  {
  }

  /** The only burst after state 4 comes at 24. */
  lemma NoBurstInTime(m: nat)
    requires 4 <= m < 9
    ensures !BurstWhenDue(States(), m, 1, Rtp)
  {
    assert IsBurst(States(), m) ==> m == 6;
  }

  /**
   From state 4 on the first sender is due by 25, which is its service time too; but at 33,
   with the task runner caught up and no lag or delay anywhere, it has had no burst.
   */
  lemma OthersCanDelay()
    ensures var rs, es := States(), Events();
            && IsRun(SHORT, rs, es) && |es| == 9
            && (forall k :: 0 <= k < 9 ==> LagsAtMost(es[k], 0) && !es[k].SenderDestroyed?) && BusyAtMost(rs, 9, 0)
            && IsDueBy(rs[4].senders, 1, Rtp, 25) && ServiceTime(SHORT, rs[4], 25) == 25
            && CaughtUp(rs[9]) && rs[9].world.now == 33
            && (forall m :: 4 <= m < 9 ==> !BurstWhenDue(rs, m, 1, Rtp))
            && LatestService(SHORT, rs[4], 25, 0) == 35
  {
    IsTheRun();
    NoDelays();
    assert TwoSenders(25, NEVER)[0] == SenderEntry(1, NEVER, 25);
    forall m | 4 <= m < 9
      ensures !BurstWhenDue(States(), m, 1, Rtp)
    {
      NoBurstInTime(m);
    }
  }
}

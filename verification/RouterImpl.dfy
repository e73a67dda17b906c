/**
 cast/streaming/sender_packet_router.cc in its own form: the loops over the sender list,
 proved to compute what RouterSpec states in closed form.
 */
module RouterImpl {
  import opened Common
  import opened RouterSpec
  import RouterProofs
  import A = AlarmSpec
  import AlarmImpl

  /** Stands for std::sort. */
  method SortByPriority(s: seq<SenderEntry>) returns (r: seq<SenderEntry>)
    requires forall i, j :: 0 <= i < j < |s| ==> s[i].ssrc != s[j].ssrc
    ensures SortedByPriority(r)
    ensures |r| == |s| && forall e :: e in r <==> e in s
  {
    r := [];
    for k := 0 to |s|
      invariant SortedByPriority(r) && |r| == k
      invariant forall e :: e in r <==> e in s[..k]
    {
      assert forall i :: 0 <= i < |r| ==> r[i] in r;
      RouterProofs.InsertKeepsSorted(r, s[k]);
      RouterProofs.InsertedElements(r, s[k]);
      r := Insert(r, s[k]);
      assert s[..k + 1] == s[..k] + [s[k]];
    }
    assert s[..|s|] == s;
  }

  /** push_back and sort, as far as there is anything to sort. */
  method AppendAndSort(s: seq<SenderEntry>, e: SenderEntry) returns (r: seq<SenderEntry>)
    requires SortedByPriority(s) && forall i :: 0 <= i < |s| ==> s[i].ssrc != e.ssrc
    ensures r == Insert(s, e)
  {
    r := s + [e];
    if |r| != 1 {
      r := SortByPriority(r);
      RouterProofs.InsertKeepsSorted(s, e);
      RouterProofs.InsertedElements(s, e);
      RouterProofs.SortedListIsUnique(r, Insert(s, e));
    }
  }

  lemma {:induction false} MinDueAppend(s: seq<SenderEntry>, e: SenderEntry)
    ensures MinDue(s + [e]) == Min(MinDue(s), MinDue([e]))
  {
    if s == [] {
      assert s + [e] == [e];
      RouterProofs.MinDueIsMin([e]);
    } else {
      assert (s + [e])[1..] == s[1..] + [e];
      MinDueAppend(s[1..], e);
    }
  }

  /** Once the budget is used up, nobody else is served. */
  lemma {:induction false} NobodyServedAfter(s: seq<SenderEntry>, answers: seq<Answer>, t: Time, budget: int, i: nat, n: nat)
    requires i <= n <= |s| == |answers|
    requires Demand(s, answers, t, i) >= budget
    ensures RtpSent(s, answers, t, budget, n) == RtpSent(s, answers, t, budget, i)
    ensures forall k :: i <= k < n ==> !Served(s, answers, t, budget, k)
  {
    if i < n {
      NobodyServedAfter(s, answers, t, budget, i, n - 1);
      RouterProofs.DemandGrows(s, answers, t, i, n - 1);
    }
  }

  /** RTP sending depends on nothing that RTCP sending changes. */
  lemma {:induction false} RtpIgnoresRtcp(s: seq<SenderEntry>, s': seq<SenderEntry>, answers: seq<Answer>,
                                          t: Time, budget: int, n: nat)
    requires n <= |s| == |s'| == |answers|
    requires forall k :: 0 <= k < |s| ==> s'[k].ssrc == s[k].ssrc && s'[k].nextRtp == s[k].nextRtp
    ensures Demand(s, answers, t, n) == Demand(s', answers, t, n)
    ensures RtpSent(s, answers, t, budget, n) == RtpSent(s', answers, t, budget, n)
    ensures forall k :: 0 <= k < n ==> (Served(s, answers, t, budget, k) <==> Served(s', answers, t, budget, k))
  {
    if n > 0 {
      RtpIgnoresRtcp(s, s', answers, t, budget, n - 1);
    }
  }

  class SenderPacketRouter {
    const cfg: Config
    const alarm: AlarmImpl.Alarm
    var senders: seq<SenderEntry>
    var lastBurstTime: Time
    var log: seq<Burst>

    ghost function State(): Router
      reads this, alarm, alarm.runner, alarm.runner.Functors()
    {
      Router(alarm.World(), senders, lastBurstTime, log)
    }

    ghost predicate Valid()
      reads this, alarm, alarm.runner, alarm.runner.Functors()
    {
      && alarm.Valid() && alarm.alive && cfg.Valid()
      && SortedByPriority(senders)
      && lastBurstTime + cfg.interval < NEVER
    }

    constructor (cfg: Config, runner: AlarmImpl.TaskRunner)
      requires cfg.Valid() && ClockInRange(cfg, runner.now)
      requires runner.queue == map[] && runner.nextId == 0
      ensures Valid() && this.cfg == cfg && alarm.runner == runner
      ensures State() == Initial(runner.now)
    {
      this.cfg := cfg;
      alarm := new AlarmImpl.Alarm(runner);
      senders, lastBurstTime, log := [], IMMEDIATELY, [];
    }

    method OnSenderCreated(ssrc: Ssrc)
      requires Valid() && Enabled(State(), SenderCreated(ssrc))
      modifies this
      ensures Valid()
      ensures State() == Step(cfg, old(State()), SenderCreated(ssrc))
    {
      RouterProofs.InsertKeepsSorted(senders, SenderEntry(ssrc, NEVER, NEVER));
      senders := AppendAndSort(senders, SenderEntry(ssrc, NEVER, NEVER));
    }

    method OnSenderDestroyed(ssrc: Ssrc)
      requires Valid() && Enabled(State(), SenderDestroyed(ssrc))
      modifies this
      ensures Valid()
      ensures State() == Step(cfg, old(State()), SenderDestroyed(ssrc))
    {
      var i := Find(senders, ssrc);
      senders := senders[..i] + senders[i + 1..];
    }

    /** Changes when a sender is due. */
    method SetEntry(i: nat, entry: SenderEntry)
      requires Valid() && i < |senders| && entry.ssrc == senders[i].ssrc
      modifies this`senders
      ensures Valid() && State() == old(State()).(senders := old(senders)[i := entry])
    {
      assert forall k :: 0 <= k < |senders| ==> senders[i := entry][k].ssrc == senders[k].ssrc;
      senders := senders[i := entry];
    }

    method RequestRtcpSend(ssrc: Ssrc, lag: nat)
      requires Valid() && Enabled(State(), RequestRtcp(ssrc, lag))
      modifies this, alarm, alarm.runner, alarm.queuedFire
      ensures Valid()
      ensures State() == Step(cfg, old(State()), RequestRtcp(ssrc, lag))
    {
      var i := Find(senders, ssrc);
      SetEntry(i, senders[i].(nextRtcp := IMMEDIATELY));
      PlanNextBurst(lag);
    }

    method RequestRtpSend(ssrc: Ssrc, lag: nat)
      requires Valid() && Enabled(State(), RequestRtp(ssrc, lag))
      modifies this, alarm, alarm.runner, alarm.queuedFire
      ensures Valid()
      ensures State() == Step(cfg, old(State()), RequestRtp(ssrc, lag))
    {
      var i := Find(senders, ssrc);
      SetEntry(i, senders[i].(nextRtp := IMMEDIATELY));
      PlanNextBurst(lag);
    }

    /** The scan of ScheduleNextBurst, which stops at the first sender that is due already. */
    method FindNextBurstTime(earliestAllowed: Time) returns (next: Time)
      requires earliestAllowed < NEVER
      ensures next == NextBurstTime(senders, earliestAllowed)
    {
      next := NEVER;
      for k := 0 to |senders|
        invariant next == NextBurstTime(senders[..k], earliestAllowed)
      {
        assert senders[..k + 1] == senders[..k] + [senders[k]];
        MinDueAppend(senders[..k], senders[k]);
        RouterProofs.MinDueIsMin(senders[..k]);
        var nextSend := Min(senders[k].nextRtcp, senders[k].nextRtp);
        if nextSend >= next {
          continue;
        }
        if nextSend <= earliestAllowed {
          RouterProofs.MinDueIsMin(senders);
          return earliestAllowed;
        }
        next := nextSend;
      }
      assert senders[..|senders|] == senders;
    }

    /** ScheduleNextBurst. */
    method PlanNextBurst(lag: nat)
      requires Valid()
      modifies alarm, alarm.runner, alarm.queuedFire
      ensures Valid() && fresh(alarm.runner.Functors() - old(alarm.runner.Functors()))
      ensures State() == ScheduleNextBurst(cfg, old(State()), lag)
    {
      ghost var r, functors := State(), alarm.runner.Functors();
      var next := FindNextBurstTime(lastBurstTime + cfg.interval);
      assert Valid() && State() == r && alarm.runner.Functors() == functors;
      SetAlarm(next, lag);
    }

    method SetAlarm(next: Time, lag: nat)
      requires Valid()
      modifies alarm, alarm.runner, alarm.queuedFire
      ensures Valid() && fresh(alarm.runner.Functors() - old(alarm.runner.Functors()))
      ensures State() == old(State()).(world := RouterSpec.SetAlarm(old(alarm.World()), next, lag))
    {
      if next == NEVER {
        alarm.Cancel();
      } else {
        alarm.ScheduleWithTask(BURST_TASK, next, lag);
      }
    }

    method SendJustTheRtcpPackets(sendTime: Time, answers: seq<Answer>) returns (packets: seq<Ssrc>)
      requires |answers| == |senders|
      modifies this`senders
      ensures packets == RtcpSent(old(senders), answers, sendTime, |answers|)
      ensures |senders| == |old(senders)|
      ensures forall k :: 0 <= k < |senders| ==>
        senders[k] == if SendsRtcp(old(senders[k]), answers[k], sendTime)
                      then old(senders[k]).(nextRtcp := sendTime + RTCP_REPORT_INTERVAL)
                      else old(senders[k])
    {
      packets := [];
      for i := 0 to |senders|
        invariant |senders| == |old(senders)|
        invariant packets == RtcpSent(old(senders), answers, sendTime, i)
        invariant forall k :: i <= k < |senders| ==> senders[k] == old(senders[k])
        invariant forall k :: 0 <= k < i ==>
          senders[k] == if SendsRtcp(old(senders[k]), answers[k], sendTime)
                        then old(senders[k]).(nextRtcp := sendTime + RTCP_REPORT_INTERVAL)
                        else old(senders[k])
      {
        if senders[i].nextRtcp > sendTime {
          continue;
        }
        if answers[i].rtcp {
          packets := packets + [senders[i].ssrc];
          senders := senders[i := senders[i].(nextRtcp := sendTime + RTCP_REPORT_INTERVAL)];
        }
      }
    }

    method SendJustTheRtpPackets(sendTime: Time, numToSend: int, answers: seq<Answer>) returns (packets: seq<Ssrc>)
      requires |answers| == |senders|
      modifies this`senders
      ensures packets == RtpSent(old(senders), answers, sendTime, numToSend, |answers|)
      ensures |senders| == |old(senders)|
      ensures forall k :: 0 <= k < |senders| ==>
        senders[k] == if Served(old(senders), answers, sendTime, numToSend, k)
                      then old(senders[k]).(nextRtp := answers[k].resume)
                      else old(senders[k])
    {
      packets := [];
      ghost var s := senders;
      for i := 0 to |senders|
        invariant |senders| == |s| == |answers|
        invariant packets == RtpSent(s, answers, sendTime, numToSend, i)
        invariant forall k :: i <= k < |senders| ==> senders[k] == s[k]
        invariant forall k :: 0 <= k < i ==>
          senders[k] == if Served(s, answers, sendTime, numToSend, k)
                        then s[k].(nextRtp := answers[k].resume) else s[k]
      {
        RouterProofs.RtpUsesBudget(s, answers, sendTime, numToSend, i);
        if |packets| >= numToSend {
          NobodyServedAfter(s, answers, sendTime, numToSend, i, |s|);
          break;
        }
        if senders[i].nextRtp > sendTime {
          continue;
        }
        packets := DrainSender(senders[i].ssrc, numToSend, answers[i].rtp, packets);
        senders := senders[i := senders[i].(nextRtp := answers[i].resume)];
      }
    }

    /** The inner loop: the sender hands out packets until it is empty or the burst is full. */
    static method DrainSender(ssrc: Ssrc, numToSend: int, available: nat, sent: seq<Ssrc>) returns (packets: seq<Ssrc>)
      requires |sent| < numToSend
      ensures packets == sent + Copies(ssrc, Min(available, numToSend - |sent|))
    {
      packets := sent;
      var handed := 0;
      while |packets| < numToSend
        invariant handed <= available && |packets| == |sent| + handed <= numToSend
        invariant packets == sent + Copies(ssrc, handed)
        decreases numToSend - |packets|
      {
        if handed == available {
          break;
        }
        packets := packets + [ssrc];
        handed := handed + 1;
      }
    }

    /** Both passes over the senders. */
    method SendPackets(burstTime: Time, answers: seq<Answer>) returns (rtcp: seq<Ssrc>, rtp: seq<Ssrc>)
      requires |answers| == |senders|
      modifies this`senders
      ensures Burst(burstTime, rtcp, rtp) == BurstAt(cfg, old(senders), answers, burstTime)
      ensures senders == AfterBurst(cfg, old(senders), answers, burstTime)
    {
      ghost var before := senders;
      rtcp := SendJustTheRtcpPackets(burstTime, answers);
      ghost var between := senders;
      rtp := SendJustTheRtpPackets(burstTime, cfg.maxPackets - |rtcp|, answers);
      RtpIgnoresRtcp(before, between, answers, burstTime, cfg.maxPackets - |rtcp|, |answers|);
      assert senders == AfterBurst(cfg, before, answers, burstTime);
    }

    method TransmitBurst(answers: seq<Answer>, spent: nat)
      requires Valid() && |answers| == |senders| && ClockInRange(cfg, alarm.runner.now)
      modifies this, alarm.runner
      ensures Valid() && alarm.runner.Functors() == old(alarm.runner.Functors())
      ensures State() == Transmit(cfg, old(State()), answers, spent)
    {
      ghost var r := State();
      var burstTime := alarm.runner.now;
      var rtcp, rtp := SendPackets(burstTime, answers);
      RouterProofs.BurstKeepsOrder(cfg, r.senders, answers, burstTime);
      lastBurstTime, log := burstTime, log + [Burst(burstTime, rtcp, rtp)];
      assert alarm.World() == r.world;
      PassTime(spent);
    }

    method SendBurstOfPackets(answers: seq<Answer>, spent: nat, lag: nat)
      requires Valid() && |answers| == |senders| && ClockInRange(cfg, alarm.runner.now)
      modifies this, alarm, alarm.runner, alarm.queuedFire
      ensures Valid() && fresh(alarm.runner.Functors() - old(alarm.runner.Functors()))
      ensures State() == SendBurst(cfg, old(State()), answers, spent, lag)
    {
      TransmitBurst(answers, spent);
      PlanNextBurst(lag);
    }

    /** The clock moves on while packets are being sent. */
    method PassTime(elapsed: nat)
      requires alarm.Valid()
      modifies alarm.runner
      ensures alarm.Valid() && alarm.runner.Functors() == old(alarm.runner.Functors())
      ensures alarm.World() == old(alarm.World()).(now := old(alarm.World()).now + elapsed)
    {
      ghost var w := alarm.World();
      alarm.runner.now := alarm.runner.now + elapsed;
      assert alarm.World() == w.(now := w.now + elapsed);
    }

    /** The task runner runs a task of the alarm, which may turn out to be a burst. */
    method OnTask(f: A.FunctorId, lag: nat, timing: BurstTiming)
      requires Valid() && Enabled(State(), RunTask(f, lag, timing))
      requires ClockInRange(cfg, alarm.runner.now) && ClockInRange(cfg, alarm.runner.now + lag + timing.delay)
      modifies this, alarm, alarm.runner, alarm.runner.Functors()
      ensures Valid()
      ensures State() == Step(cfg, old(State()), RunTask(f, lag, timing))
    {
      var ran := alarm.runner.RunTask(f, lag, alarm);
      if ran.Some? {
        RunBurst(timing);
      }
    }

    /** The alarm has started a burst, which begins to read the clock a little later. */
    method RunBurst(timing: BurstTiming)
      requires Valid() && |timing.answers| == |senders| && ClockInRange(cfg, alarm.runner.now + timing.delay)
      modifies this, alarm, alarm.runner, alarm.queuedFire
      ensures Valid() && fresh(alarm.runner.Functors() - old(alarm.runner.Functors()))
      ensures State() == SendBurst(cfg, AtBurst(old(State()), old(alarm.World()), timing),
                                   timing.answers, timing.spent, timing.lag)
    {
      ghost var r, functors := State(), alarm.runner.Functors();
      PassTime(timing.delay);
      assert Valid() && State() == AtBurst(r, r.world, timing) && alarm.runner.Functors() == functors;
      SendBurstOfPackets(timing.answers, timing.spent, timing.lag);
    }
  }
}

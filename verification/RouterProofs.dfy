/** Pacing, priority and liveness of the packet router, over every run. */
module RouterProofs {
  import opened Common
  import opened RouterSpec
  import A = AlarmSpec
  import AlarmProofs

  // ----- the sender list -----

  lemma {:induction false} InsertedElements(s: seq<SenderEntry>, e: SenderEntry)
    ensures |Insert(s, e)| == |s| + 1
    ensures forall x :: x in Insert(s, e) <==> x in s + [e]
  {
    if s != [] && ComparePriority(e.ssrc, s[0].ssrc) >= 0 {
      InsertedElements(s[1..], e);
      assert s == [s[0]] + s[1..];
    }
  }

  lemma {:induction false} InsertKeepsSorted(s: seq<SenderEntry>, e: SenderEntry)
    requires SortedByPriority(s)
    requires forall i :: 0 <= i < |s| ==> s[i].ssrc != e.ssrc
    ensures SortedByPriority(Insert(s, e))
  {
    if s != [] && ComparePriority(e.ssrc, s[0].ssrc) >= 0 {
      InsertKeepsSorted(s[1..], e);
      InsertedElements(s[1..], e);
      var rest := Insert(s[1..], e);
      forall j | 0 <= j < |rest|
        ensures ComparePriority(s[0].ssrc, rest[j].ssrc) < 0
      {
        assert rest[j] in rest;
        assert rest[j] in s[1..] || rest[j] == e;
      }
    }
  }

  lemma HeadHasTopPriority(s: seq<SenderEntry>, e: SenderEntry)
    requires SortedByPriority(s) && e in s
    ensures e == s[0] || ComparePriority(s[0].ssrc, e.ssrc) < 0
    ensures e in s[1..] <==> e != s[0]
  {
    var i :| 0 <= i < |s| && s[i] == e;
    assert i > 0 ==> s[1..][i - 1] == e;
  }

  /** Sorting has one outcome, so std::sort after push_back yields the same list as Insert. */
  lemma {:induction false} SortedListIsUnique(s: seq<SenderEntry>, t: seq<SenderEntry>)
    requires SortedByPriority(s) && SortedByPriority(t)
    requires |s| == |t| && forall e :: e in s <==> e in t
    ensures s == t
  {
    if s != [] {
      assert s[0] in t;
      HeadHasTopPriority(t, s[0]);
      HeadHasTopPriority(s, t[0]);
      forall e
        ensures e in s[1..] <==> e in t[1..]
      {
        if e in s {
          HeadHasTopPriority(s, e);
          HeadHasTopPriority(t, e);
        }
      }
      SortedListIsUnique(s[1..], t[1..]);
      assert s == [s[0]] + s[1..] && t == [t[0]] + t[1..];
    }
  }

  lemma {:induction false} MinDueIsMin(s: seq<SenderEntry>)
    ensures MinDue(s) <= NEVER
    ensures forall i :: 0 <= i < |s| ==> MinDue(s) <= s[i].Due()
    ensures MinDue(s) < NEVER ==> exists i :: 0 <= i < |s| && s[i].Due() == MinDue(s)
  {
    if s != [] {
      MinDueIsMin(s[1..]);
      if MinDue(s) < NEVER && MinDue(s) < s[0].Due() {
        var i :| 0 <= i < |s[1..]| && s[1..][i].Due() == MinDue(s[1..]);
        assert s[i + 1].Due() == MinDue(s);
      }
    }
  }

  // ----- one burst -----

  lemma {:induction false} DemandGrows(s: seq<SenderEntry>, answers: seq<Answer>, t: Time, m: nat, n: nat)
    requires m <= n <= |s| == |answers|
    ensures Demand(s, answers, t, m) <= Demand(s, answers, t, n)
  {
    if m < n {
      DemandGrows(s, answers, t, m, n - 1);
    }
  }

  /** RTP sending uses the budget as far as there is demand, and no more. */
  lemma {:induction false} RtpUsesBudget(s: seq<SenderEntry>, answers: seq<Answer>, t: Time, budget: int, n: nat)
    requires n <= |s| == |answers|
    ensures |RtpSent(s, answers, t, budget, n)| == Max(0, Min(budget, Demand(s, answers, t, n)))
  {
    if n > 0 {
      RtpUsesBudget(s, answers, t, budget, n - 1);
    }
  }

  /** Every RTP packet belongs to a sender, and packets go out in priority order. */
  lemma {:induction false} RtpInPriorityOrder(s: seq<SenderEntry>, answers: seq<Answer>, t: Time, budget: int, n: nat)
    requires n <= |s| == |answers| && SortedByPriority(s)
    ensures forall x :: x in RtpSent(s, answers, t, budget, n) ==> HasSender(s, n, x)
    ensures InPriorityOrder(RtpSent(s, answers, t, budget, n))
  {
    if n > 0 {
      RtpInPriorityOrder(s, answers, t, budget, n - 1);
      var before := RtpSent(s, answers, t, budget, n - 1);
      assert forall k :: 0 <= k < |before| ==> before[k] in before;
    }
  }

  /** The last of `n` senders adds its share to the packets of the others. */
  lemma LastAddsItsShare(s: seq<SenderEntry>, answers: seq<Answer>, t: Time, budget: int, n: nat, x: Ssrc)
    requires 0 < n <= |s| == |answers|
    ensures multiset(RtpSent(s, answers, t, budget, n))[x] == multiset(RtpSent(s, answers, t, budget, n - 1))[x]
            + if x == s[n - 1].ssrc then RtpShare(s, answers, t, budget, n - 1) else 0
  {
    var before, share := RtpSent(s, answers, t, budget, n - 1), RtpShare(s, answers, t, budget, n - 1);
    CountInParts(before, Copies(s[n - 1].ssrc, share), x);
    if x == s[n - 1].ssrc {
      CountOfCopies(x, share);
    } else {
      NoOtherCopies(s[n - 1].ssrc, share, x);
    }
  }

  /** Each sender sends exactly its share. */
  lemma {:induction false} RtpSentByShare(s: seq<SenderEntry>, answers: seq<Answer>, t: Time, budget: int, n: nat, i: nat)
    requires i < n <= |s| == |answers| && SortedByPriority(s)
    ensures multiset(RtpSent(s, answers, t, budget, n))[s[i].ssrc] == RtpShare(s, answers, t, budget, i)
  {
    LastAddsItsShare(s, answers, t, budget, n, s[i].ssrc);
    if i < n - 1 {
      RtpSentByShare(s, answers, t, budget, n - 1, i);
    } else {
      NotSentBefore(s, answers, t, budget, n - 1);
      CountInParts(RtpSent(s, answers, t, budget, n - 1), [], s[i].ssrc);
    }
  }

  lemma NoOtherCopies(x: Ssrc, n: nat, y: Ssrc)
    requires x != y
    ensures multiset(Copies(x, n))[y] == 0
  {
    CountInParts(Copies(x, n), [], y);
  }

  lemma CountInParts(a: seq<Ssrc>, b: seq<Ssrc>, x: Ssrc)
    ensures multiset(a + b)[x] == multiset(a)[x] + multiset(b)[x]
    ensures x !in a ==> multiset(a)[x] == 0
  {
    assert multiset(a + b) == multiset(a) + multiset(b);
  }

  lemma NotSentBefore(s: seq<SenderEntry>, answers: seq<Answer>, t: Time, budget: int, n: nat)
    requires n < |s| == |answers| && SortedByPriority(s)
    ensures s[n].ssrc !in RtpSent(s, answers, t, budget, n)
  {
    RtpInPriorityOrder(s, answers, t, budget, n);
    assert !HasSender(s, n, s[n].ssrc);
  }

  ghost predicate HasSender(s: seq<SenderEntry>, n: nat, ssrc: Ssrc)
    requires n <= |s|
  {
    exists i :: 0 <= i < n && s[i].ssrc == ssrc
  }

  ghost predicate InPriorityOrder(packets: seq<Ssrc>) {
    forall i, j :: 0 <= i < j < |packets| ==> packets[i] <= packets[j]
  }

  lemma {:induction false} CountOfCopies(x: Ssrc, n: nat)
    ensures multiset(Copies(x, n))[x] == n
  {
    if n > 0 {
      CountOfCopies(x, n - 1);
      assert Copies(x, n) == Copies(x, n - 1) + [x];
    }
  }

  lemma {:induction false} RtcpFromSenders(s: seq<SenderEntry>, answers: seq<Answer>, t: Time, n: nat, x: Ssrc)
    requires n <= |s| == |answers| && x in RtcpSent(s, answers, t, n)
    ensures HasSender(s, n, x)
  {
    if x != s[n - 1].ssrc {
      RtcpFromSenders(s, answers, t, n - 1, x);
    }
  }

  lemma NotReportedBefore(s: seq<SenderEntry>, answers: seq<Answer>, t: Time, n: nat)
    requires n < |s| == |answers| && SortedByPriority(s)
    ensures s[n].ssrc !in RtcpSent(s, answers, t, n)
  {
    if s[n].ssrc in RtcpSent(s, answers, t, n) {
      RtcpFromSenders(s, answers, t, n, s[n].ssrc);
    }
  }

  lemma {:induction false} RtcpIffDue(s: seq<SenderEntry>, answers: seq<Answer>, t: Time, n: nat, i: nat)
    requires i < n <= |s| == |answers| && SortedByPriority(s)
    ensures s[i].ssrc in RtcpSent(s, answers, t, n) <==> SendsRtcp(s[i], answers[i], t)
  {
    if i == n - 1 {
      NotReportedBefore(s, answers, t, n - 1);
    } else {
      RtcpIffDue(s, answers, t, n - 1, i);
      assert s[i].ssrc != s[n - 1].ssrc;
    }
  }

  ghost predicate InStrictOrder(packets: seq<Ssrc>) {
    forall i, j :: 0 <= i < j < |packets| ==> packets[i] < packets[j]
  }

  lemma {:induction false} RtcpInStrictOrder(s: seq<SenderEntry>, answers: seq<Answer>, t: Time, n: nat)
    requires n <= |s| == |answers| && SortedByPriority(s)
    ensures InStrictOrder(RtcpSent(s, answers, t, n))
  {
    if n > 0 {
      RtcpInStrictOrder(s, answers, t, n - 1);
      var before := RtcpSent(s, answers, t, n - 1);
      forall k | 0 <= k < |before|
        ensures ComparePriority(before[k], s[n - 1].ssrc) < 0
      {
        var x := before[k];
        assert x in before;
        RtcpFromSenders(s, answers, t, n - 1, x);
      }
    }
  }

  /** One RTCP packet from each due sender that has one, strictly by priority. */
  lemma RtcpOncePerSender(s: seq<SenderEntry>, answers: seq<Answer>, t: Time, n: nat)
    requires n <= |s| == |answers| && SortedByPriority(s)
    ensures forall i :: 0 <= i < n ==> (s[i].ssrc in RtcpSent(s, answers, t, n) <==> SendsRtcp(s[i], answers[i], t))
    ensures forall x :: x in RtcpSent(s, answers, t, n) ==> HasSender(s, n, x)
    ensures InStrictOrder(RtcpSent(s, answers, t, n))
  {
    forall i | 0 <= i < n
      ensures s[i].ssrc in RtcpSent(s, answers, t, n) <==> SendsRtcp(s[i], answers[i], t)
    {
      RtcpIffDue(s, answers, t, n, i);
    }
    forall x | x in RtcpSent(s, answers, t, n)
      ensures HasSender(s, n, x)
    {
      RtcpFromSenders(s, answers, t, n, x);
    }
    RtcpInStrictOrder(s, answers, t, n);
  }

  /** RTCP: at most one packet per sender, strictly by priority, from all who want to send. */
  ghost predicate IsFairRtcp(s: seq<SenderEntry>, answers: seq<Answer>, t: Time, rtcp: seq<Ssrc>)
    requires |s| == |answers|
  {
    && InStrictOrder(rtcp)
    && (forall i :: 0 <= i < |s| ==> (s[i].ssrc in rtcp <==> SendsRtcp(s[i], answers[i], t)))
    && (forall x :: x in rtcp ==> HasSender(s, |s|, x))
  }

  /** RTP: as much of the demand as the budget holds, each sender after all those above it. */
  ghost predicate IsFairRtp(s: seq<SenderEntry>, answers: seq<Answer>, t: Time, budget: int, rtp: seq<Ssrc>)
    requires |s| == |answers|
  {
    && |rtp| == Max(0, Min(budget, Demand(s, answers, t, |s|)))
    && InPriorityOrder(rtp)
    && (forall x :: x in rtp ==> HasSender(s, |s|, x))
    && (forall i :: 0 <= i < |s| ==>
          multiset(rtp)[s[i].ssrc] <= if s[i].nextRtp <= t then answers[i].rtp else 0)
    // Whoever sends comes after all due senders of higher priority have been drained.
    && (forall i, j :: 0 <= j < i < |s| && s[i].ssrc in rtp && s[j].nextRtp <= t ==>
          multiset(rtp)[s[j].ssrc] == answers[j].rtp)
  }

  /** A sender gets a share only if every due sender before it gets all it wants. */
  lemma ShareAfterDrained(s: seq<SenderEntry>, answers: seq<Answer>, t: Time, budget: int, j: nat, i: nat)
    requires j < i < |s| == |answers|
    requires RtpShare(s, answers, t, budget, i) > 0 && s[j].nextRtp <= t
    ensures RtpShare(s, answers, t, budget, j) == answers[j].rtp
  {
    DemandGrows(s, answers, t, j + 1, i);
  }

  lemma RtpIsFair(s: seq<SenderEntry>, answers: seq<Answer>, t: Time, budget: int)
    requires |s| == |answers| && SortedByPriority(s)
    ensures IsFairRtp(s, answers, t, budget, RtpSent(s, answers, t, budget, |s|))
  {
    var rtp := RtpSent(s, answers, t, budget, |s|);
    RtpUsesBudget(s, answers, t, budget, |s|);
    RtpInPriorityOrder(s, answers, t, budget, |s|);
    forall i | 0 <= i < |s|
      ensures multiset(rtp)[s[i].ssrc] <= if s[i].nextRtp <= t then answers[i].rtp else 0
    {
      RtpSentByShare(s, answers, t, budget, |s|, i);
    }
    forall i, j | 0 <= j < i < |s| && s[i].ssrc in rtp && s[j].nextRtp <= t
      ensures multiset(rtp)[s[j].ssrc] == answers[j].rtp
    {
      RtpSentByShare(s, answers, t, budget, |s|, i);
      RtpSentByShare(s, answers, t, budget, |s|, j);
      assert s[i].ssrc in multiset(rtp);
      ShareAfterDrained(s, answers, t, budget, j, i);
    }
  }

  ghost predicate IsFairBurst(cfg: Config, s: seq<SenderEntry>, answers: seq<Answer>, b: Burst) {
    && |s| == |answers|
    && IsFairRtcp(s, answers, b.time, b.rtcp)
    && IsFairRtp(s, answers, b.time, cfg.maxPackets - |b.rtcp|, b.rtp)
  }

  /** What the documentation promises of a burst: all RTCP, then RTP in the room that is left. */
  lemma BurstIsFair(cfg: Config, s: seq<SenderEntry>, answers: seq<Answer>, t: Time)
    requires |s| == |answers| && SortedByPriority(s)
    ensures BurstAt(cfg, s, answers, t).time == t
    ensures IsFairBurst(cfg, s, answers, BurstAt(cfg, s, answers, t))
  {
    RtcpOncePerSender(s, answers, t, |s|);
    RtpIsFair(s, answers, t, cfg.maxPackets - |RtcpSent(s, answers, t, |s|)|);
  }

  // ----- whole runs -----

  ghost predicate Spaced(log: seq<Burst>, interval: Time) {
    forall i :: 0 <= i < |log| - 1 ==> log[i].time + interval <= log[i + 1].time
  }

  /** The list is in order, the log is paced, and the alarm underneath is in order. */
  ghost predicate Base(cfg: Config, r: Router) {
    && A.Linked(r.world) && A.Armed(r.world) && r.world.alarm.alive
    && WellFormedSenders(r.senders)
    && r.lastBurst <= r.world.now
    && Spaced(r.log, cfg.interval)
    && (forall i :: 0 <= i < |r.log| ==> WithinBudget(cfg, r.log[i]))
    && r.lastBurst == if r.log == [] then IMMEDIATELY else r.log[|r.log| - 1].time
  }

  /** A burst is never planned for less than one interval after the last one. */
  ghost predicate Paced(cfg: Config, r: Router) {
    r.world.alarm.task.Some? ==> r.lastBurst + cfg.interval <= r.world.alarm.alarmTime
  }

  /** If any sender is due at any time, a burst is planned for as soon as the pacing allows. */
  ghost predicate NoneForgotten(cfg: Config, r: Router) {
    MinDue(r.senders) < NEVER ==>
      && r.world.alarm.task.Some?
      && r.world.alarm.alarmTime <= Max(r.world.now, Max(r.lastBurst + cfg.interval, MinDue(r.senders)))
  }

  ghost predicate Inv(cfg: Config, r: Router) {
    Base(cfg, r) && Paced(cfg, r) && NoneForgotten(cfg, r)
  }

  lemma ScheduleKeepsBase(cfg: Config, r: Router, lag: nat)
    requires Base(cfg, r)
    ensures Base(cfg, ScheduleNextBurst(cfg, r, lag))
  {
    var next := NextBurstTime(r.senders, r.lastBurst + cfg.interval);
    var e := if next == NEVER then A.Cancel else A.Schedule(BURST_TASK, next, lag);
    AlarmProofs.StepKeepsLinked(r.world, e);
    AlarmProofs.StepKeepsArmed(r.world, e);
  }

  /** The alarm is set for the next burst's time, or for now if that is past. */
  lemma ScheduleSetsAlarm(cfg: Config, r: Router, lag: nat)
    requires cfg.Valid() && r.lastBurst <= r.world.now && ClockInRange(cfg, r.world.now)
    ensures var r' := ScheduleNextBurst(cfg, r, lag); Paced(cfg, r') && NoneForgotten(cfg, r')
  {
  }

  /** Planning the next burst restores everything, whatever happened to the senders before. */
  lemma ScheduleRestoresInv(cfg: Config, r: Router, lag: nat)
    requires cfg.Valid() && Base(cfg, r) && ClockInRange(cfg, r.world.now)
    ensures Inv(cfg, ScheduleNextBurst(cfg, r, lag))
  {
    ScheduleKeepsBase(cfg, r, lag);
    ScheduleSetsAlarm(cfg, r, lag);
  }

  lemma ClockAdvances(cfg: Config, r: Router, lag: nat)
    ensures r.world.now <= ScheduleNextBurst(cfg, r, lag).world.now
  {
  }

  ghost predicate WellFormedSenders(s: seq<SenderEntry>) {
    && SortedByPriority(s)
    && forall i :: 0 <= i < |s| ==> s[i].nextRtcp <= NEVER && s[i].nextRtp <= NEVER
  }

  lemma BurstKeepsOrder(cfg: Config, s: seq<SenderEntry>, answers: seq<Answer>, t: Time)
    requires SortedByPriority(s) && |answers| == |s|
    ensures SortedByPriority(AfterBurst(cfg, s, answers, t))
  {
    var s' := AfterBurst(cfg, s, answers, t);
    assert forall i :: 0 <= i < |s| ==> s'[i].ssrc == s[i].ssrc;
  }

  lemma BurstKeepsSenders(cfg: Config, s: seq<SenderEntry>, answers: seq<Answer>, t: Time)
    requires cfg.Valid() && WellFormedSenders(s) && |answers| == |s| && ClockInRange(cfg, t)
    requires forall i :: 0 <= i < |answers| ==> answers[i].resume <= NEVER
    ensures WellFormedSenders(AfterBurst(cfg, s, answers, t))
  {
    BurstKeepsOrder(cfg, s, answers, t);
  }

  /** A burst in the log keeps within the budget that its RTCP packets leave. */
  ghost predicate WithinBudget(cfg: Config, b: Burst) {
    |b.rtp| <= Max(0, cfg.maxPackets - |b.rtcp|)
  }

  lemma BurstWithinBudget(cfg: Config, s: seq<SenderEntry>, answers: seq<Answer>, t: Time)
    requires |s| == |answers|
    ensures WithinBudget(cfg, BurstAt(cfg, s, answers, t))
  {
    var b := BurstAt(cfg, s, answers, t);
    RtpUsesBudget(s, answers, t, cfg.maxPackets - |b.rtcp|, |s|);
  }

  lemma TransmitKeepsBase(cfg: Config, r: Router, answers: seq<Answer>, spent: nat)
    requires cfg.Valid() && Base(cfg, r) && |answers| == |r.senders|
    requires r.lastBurst + cfg.interval <= r.world.now && ClockInRange(cfg, r.world.now)
    requires forall i :: 0 <= i < |answers| ==> answers[i].resume <= NEVER
    ensures Base(cfg, Transmit(cfg, r, answers, spent))
  {
    var t := r.world.now;
    BurstKeepsSenders(cfg, r.senders, answers, t);
    BurstWithinBudget(cfg, r.senders, answers, t);
    RecordKeepsBase(cfg, r, AfterBurst(cfg, r.senders, answers, t), BurstAt(cfg, r.senders, answers, t), spent);
  }

  lemma RecordKeepsBase(cfg: Config, r: Router, senders: seq<SenderEntry>, b: Burst, spent: nat)
    requires cfg.Valid() && Base(cfg, r) && WellFormedSenders(senders) && WithinBudget(cfg, b)
    requires r.lastBurst + cfg.interval <= b.time == r.world.now
    ensures Base(cfg, Router(r.world.(now := r.world.now + spent), senders, b.time, r.log + [b]))
  {
  }

  lemma {:induction false} MinDueOfPart(s: seq<SenderEntry>, t: seq<SenderEntry>)
    requires forall e :: e in s ==> e in t || e.Due() >= NEVER
    ensures MinDue(t) <= MinDue(s)
  {
    MinDueIsMin(s);
    MinDueIsMin(t);
    if MinDue(s) < NEVER {
      var i :| 0 <= i < |s| && s[i].Due() == MinDue(s);
      assert s[i] in s;
      var j :| 0 <= j < |t| && t[j] == s[i];
    }
  }

  lemma StepKeepsInv(cfg: Config, r: Router, e: Event)
    requires cfg.Valid() && Inv(cfg, r) && Enabled(r, e)
    requires ClockInRange(cfg, r.world.now) && ClockInRange(cfg, Step(cfg, r, e).world.now)
    ensures Inv(cfg, Step(cfg, r, e))
  {
    match e
    case Tick(elapsed) =>
    case SenderCreated(ssrc) => CreateKeepsInv(cfg, r, ssrc);
    case SenderDestroyed(ssrc) => DestroyKeepsInv(cfg, r, ssrc);
    case RequestRtcp(ssrc, lag) =>
      var i := Find(r.senders, ssrc);
      RequestKeepsInv(cfg, r, i, r.senders[i].(nextRtcp := IMMEDIATELY), lag);
    case RequestRtp(ssrc, lag) =>
      var i := Find(r.senders, ssrc);
      RequestKeepsInv(cfg, r, i, r.senders[i].(nextRtp := IMMEDIATELY), lag);
    case RunTask(f, lag, timing) => RunTaskKeepsInv(cfg, r, f, lag, timing);
    case MoveTask(f) =>
      AlarmProofs.StepKeepsLinked(r.world, A.Move(f));
      AlarmProofs.StepKeepsArmed(r.world, A.Move(f));
  }

  lemma CreateKeepsSenders(s: seq<SenderEntry>, ssrc: Ssrc)
    requires WellFormedSenders(s) && Find(s, ssrc) == |s|
    ensures WellFormedSenders(Insert(s, SenderEntry(ssrc, NEVER, NEVER)))
    ensures MinDue(s) <= MinDue(Insert(s, SenderEntry(ssrc, NEVER, NEVER)))
  {
    var entry := SenderEntry(ssrc, NEVER, NEVER);
    var s' := Insert(s, entry);
    InsertKeepsSorted(s, entry);
    InsertedElements(s, entry);
    forall i | 0 <= i < |s'|
      ensures s'[i].nextRtcp <= NEVER && s'[i].nextRtp <= NEVER
    {
      assert s'[i] in s';
      assert s'[i] in s || s'[i] == entry;
    }
    MinDueOfPart(s', s);
  }

  lemma CreateKeepsInv(cfg: Config, r: Router, ssrc: Ssrc)
    requires Inv(cfg, r) && Find(r.senders, ssrc) == |r.senders|
    ensures Inv(cfg, r.(senders := Insert(r.senders, SenderEntry(ssrc, NEVER, NEVER))))
  {
    CreateKeepsSenders(r.senders, ssrc);
  }

  lemma RemoveKeepsSorted(s: seq<SenderEntry>, i: nat)
    requires SortedByPriority(s) && i < |s|
    ensures SortedByPriority(s[..i] + s[i + 1..])
  {
    var s' := s[..i] + s[i + 1..];
    forall j, k | 0 <= j < k < |s'|
      ensures ComparePriority(s'[j].ssrc, s'[k].ssrc) < 0
    {
      assert s'[j] == s[if j < i then j else j + 1] && s'[k] == s[if k < i then k else k + 1];
    }
  }

  lemma DestroyKeepsSenders(s: seq<SenderEntry>, i: nat)
    requires WellFormedSenders(s) && i < |s|
    ensures WellFormedSenders(s[..i] + s[i + 1..])
    ensures MinDue(s) <= MinDue(s[..i] + s[i + 1..])
  {
    RemoveKeepsSorted(s, i);
    MinDueOfPart(s[..i] + s[i + 1..], s);
  }

  lemma DestroyKeepsInv(cfg: Config, r: Router, ssrc: Ssrc)
    requires Inv(cfg, r) && Find(r.senders, ssrc) < |r.senders|
    ensures Inv(cfg, r.(senders := r.senders[..Find(r.senders, ssrc)] + r.senders[Find(r.senders, ssrc) + 1..]))
  {
    DestroyKeepsSenders(r.senders, Find(r.senders, ssrc));
  }

  lemma RequestKeepsInv(cfg: Config, r: Router, i: nat, entry: SenderEntry, lag: nat)
    requires cfg.Valid() && Inv(cfg, r) && ClockInRange(cfg, r.world.now)
    requires i < |r.senders| && entry.ssrc == r.senders[i].ssrc && entry.nextRtcp <= NEVER && entry.nextRtp <= NEVER
    ensures Inv(cfg, ScheduleNextBurst(cfg, r.(senders := r.senders[i := entry]), lag))
  {
    ScheduleRestoresInv(cfg, r.(senders := r.senders[i := entry]), lag);
  }

  lemma RunTaskKeepsInv(cfg: Config, r: Router, f: A.FunctorId, lag: nat, timing: BurstTiming)
    requires cfg.Valid() && Inv(cfg, r) && Enabled(r, RunTask(f, lag, timing))
    requires ClockInRange(cfg, r.world.now) && ClockInRange(cfg, Step(cfg, r, RunTask(f, lag, timing)).world.now)
    ensures Inv(cfg, Step(cfg, r, RunTask(f, lag, timing)))
  {
    var fired := A.Step(r.world, A.Fire(f, lag));
    FireKeepsBase(cfg, r, f, lag);
    if fired.ran.Some? {
      var r1 := AtBurst(r, fired.world, timing);
      ClockAdvances(cfg, Transmit(cfg, r1, timing.answers, timing.spent), timing.lag);
      TransmitKeepsBase(cfg, r1, timing.answers, timing.spent);
      ScheduleRestoresInv(cfg, Transmit(cfg, r1, timing.answers, timing.spent), timing.lag);
    }
  }

  /** The alarm starts a burst only when the pacing allows it. */
  lemma FireKeepsBase(cfg: Config, r: Router, f: A.FunctorId, lag: nat)
    requires Inv(cfg, r) && A.Enabled(r.world, A.Fire(f, lag))
    ensures Base(cfg, r.(world := A.Step(r.world, A.Fire(f, lag)).world))
    ensures A.Step(r.world, A.Fire(f, lag)).ran.None? ==> Inv(cfg, r.(world := A.Step(r.world, A.Fire(f, lag)).world))
    ensures A.Step(r.world, A.Fire(f, lag)).ran.Some? ==> r.lastBurst + cfg.interval <= r.world.now
    ensures r.world.now <= A.Step(r.world, A.Fire(f, lag)).world.now
  {
    AlarmProofs.StepKeepsLinked(r.world, A.Fire(f, lag));
    AlarmProofs.StepKeepsArmed(r.world, A.Fire(f, lag));
  }

  lemma {:induction false} AlwaysInv(cfg: Config, rs: seq<Router>, es: seq<Event>, i: nat)
    requires IsRun(cfg, rs, es) && i < |rs|
    ensures Inv(cfg, rs[i])
  {
    if i > 0 {
      AlwaysInv(cfg, rs, es, i - 1);
      StepKeepsInv(cfg, rs[i - 1], es[i - 1]);
    }
  }

  // ----- the rate guarantee -----

  /** The bursts of the log that lie in the closed window from `lo` to `hi`, and their RTP packets. */
  ghost function BurstsIn(log: seq<Burst>, lo: Time, hi: Time): nat {
    if log == [] then 0
    else BurstsIn(log[..|log| - 1], lo, hi) + if lo <= log[|log| - 1].time <= hi then 1 else 0
  }

  ghost function RtpIn(log: seq<Burst>, lo: Time, hi: Time): nat {
    if log == [] then 0
    else RtpIn(log[..|log| - 1], lo, hi) + if lo <= log[|log| - 1].time <= hi then |log[|log| - 1].rtp| else 0
  }

  lemma {:induction false} NoBurstsBefore(log: seq<Burst>, interval: Time, lo: Time, hi: Time)
    requires Spaced(log, interval) && interval > 0
    requires log != [] ==> log[|log| - 1].time < lo
    ensures BurstsIn(log, lo, hi) == 0
  {
    if log != [] {
      NoBurstsBefore(log[..|log| - 1], interval, lo, hi);
    }
  }

  lemma {:induction false} SameWindow(log: seq<Burst>, interval: Time, lo: Time, hi: Time, hi': Time)
    requires Spaced(log, interval) && interval > 0 && hi' <= hi
    requires log != [] ==> log[|log| - 1].time <= hi'
    ensures BurstsIn(log, lo, hi) == BurstsIn(log, lo, hi')
  {
    if log != [] {
      SameWindow(log[..|log| - 1], interval, lo, hi, hi');
    }
  }

  /** All bursts in a window but the first need a full interval of it each. */
  lemma {:induction false} WindowHoldsFewBursts(log: seq<Burst>, interval: Time, lo: Time, hi: Time)
    requires Spaced(log, interval) && interval > 0
    ensures BurstsIn(log, lo, hi) > 0 ==> (BurstsIn(log, lo, hi) - 1) * interval <= hi - lo
  {
    if log != [] {
      var rest, last := log[..|log| - 1], log[|log| - 1].time;
      if last > hi {
        WindowHoldsFewBursts(rest, interval, lo, hi);
      } else if last < lo {
        NoBurstsBefore(log, interval, lo, hi);
      } else {
        SameWindow(rest, interval, lo, hi, last - interval);
        WindowHoldsFewBursts(rest, interval, lo, last - interval);
        var n := BurstsIn(rest, lo, last - interval);
        assert n > 0 ==> n * interval == (n - 1) * interval + interval;
      }
    }
  }

  lemma {:induction false} RtpWithinBursts(log: seq<Burst>, cfg: Config, lo: Time, hi: Time)
    requires cfg.Valid() && forall i :: 0 <= i < |log| ==> WithinBudget(cfg, log[i])
    ensures RtpIn(log, lo, hi) <= BurstsIn(log, lo, hi) * cfg.maxPackets
  {
    if log != [] {
      var rest := log[..|log| - 1];
      RtpWithinBursts(rest, cfg, lo, hi);
      assert WithinBudget(cfg, log[|log| - 1]);
      assert (BurstsIn(rest, lo, hi) + 1) * cfg.maxPackets == BurstsIn(rest, lo, hi) * cfg.maxPackets + cfg.maxPackets;
    }
  }

  lemma {:induction false} MulMonotone(m: nat, n: nat, d: nat)
    requires m <= n
    ensures m * d <= n * d
  {
    if m < n {
      MulMonotone(m, n - 1, d);
      assert n * d == (n - 1) * d + d;
    }
  }

  lemma CountTimesMax(n: nat, interval: nat, width: nat, max: nat)
    requires interval > 0 && (n > 0 ==> (n - 1) * interval <= width)
    ensures n * max <= (width / interval + 1) * max
  {
    var q := width / interval;
    assert width < (q + 1) * interval;
    if n > q + 1 {
      MulMonotone(q + 1, n - 1, interval);
      assert false;
    }
    MulMonotone(n, q + 1, max);
  }

  lemma WindowHoldsFewPackets(cfg: Config, log: seq<Burst>, lo: Time, width: nat)
    requires cfg.Valid() && Spaced(log, cfg.interval)
    requires forall i :: 0 <= i < |log| ==> WithinBudget(cfg, log[i])
    ensures RtpIn(log, lo, lo + width) <= (width / cfg.interval + 1) * cfg.maxPackets
  {
    WindowHoldsFewBursts(log, cfg.interval, lo, lo + width);
    RtpWithinBursts(log, cfg, lo, lo + width);
    CountTimesMax(BurstsIn(log, lo, lo + width), cfg.interval, width, cfg.maxPackets);
  }

  /** In every run, every window of length `width` carries a bounded number of RTP packets. */
  lemma RateGuarantee(cfg: Config, rs: seq<Router>, es: seq<Event>, i: nat, lo: Time, width: nat)
    requires IsRun(cfg, rs, es) && i < |rs|
    ensures RtpIn(rs[i].log, lo, lo + width) <= (width / cfg.interval + 1) * cfg.maxPackets
  {
    AlwaysInv(cfg, rs, es, i);
    WindowHoldsFewPackets(cfg, rs[i].log, lo, width);
  }

  /** In every run, bursts `j` and `k` are at least `k - j` intervals apart. */
  lemma {:induction false} BurstsAreSpaced(cfg: Config, rs: seq<Router>, es: seq<Event>, i: nat, j: nat, k: nat)
    requires IsRun(cfg, rs, es) && i < |rs| && j <= k < |rs[i].log|
    ensures rs[i].log[j].time + (k - j) * cfg.interval <= rs[i].log[k].time
    decreases k
  {
    AlwaysInv(cfg, rs, es, i);
    if j < k {
      BurstsAreSpaced(cfg, rs, es, i, j, k - 1);
      assert (k - j) * cfg.interval == (k - 1 - j) * cfg.interval + cfg.interval;
      assert rs[i].log[k - 1].time + cfg.interval <= rs[i].log[k - 1 + 1].time;
    }
  }

  // ----- every burst is fair -----

  lemma LogGrowsByBurst(cfg: Config, r: Router, f: A.FunctorId, lag: nat, timing: BurstTiming)
    requires Enabled(r, RunTask(f, lag, timing))
    ensures var fired := A.Step(r.world, A.Fire(f, lag));
            Step(cfg, r, RunTask(f, lag, timing)).log ==
            if fired.ran.None? then r.log
            else r.log + [BurstAt(cfg, r.senders, timing.answers, fired.world.now + timing.delay)]
  {
  }

  lemma AlwaysSorted(cfg: Config, rs: seq<Router>, es: seq<Event>, i: nat)
    requires IsRun(cfg, rs, es) && i < |rs|
    ensures SortedByPriority(rs[i].senders)
  {
    AlwaysInv(cfg, rs, es, i);
  }

  /** What a burst leaves behind: the senders after it, its time, and its packets in the log. */
  lemma AfterTheBurst(cfg: Config, rs: seq<Router>, es: seq<Event>, i: nat)
    requires IsRun(cfg, rs, es) && i < |es| && rs[i + 1].log != rs[i].log
    ensures es[i].RunTask? && |es[i].timing.answers| == |rs[i].senders|
    ensures var t := rs[i + 1].lastBurst;
            && rs[i + 1].senders == AfterBurst(cfg, rs[i].senders, es[i].timing.answers, t)
            && rs[i + 1].log == rs[i].log + [BurstAt(cfg, rs[i].senders, es[i].timing.answers, t)]
  {
  }

  lemma BurstIsLater(cfg: Config, rs: seq<Router>, es: seq<Event>, i: nat)
    requires IsRun(cfg, rs, es) && i < |es| && rs[i + 1].log != rs[i].log
    ensures rs[i].world.now <= rs[i + 1].lastBurst
  {
    AlwaysLinked(cfg, rs, es, i);
    AlarmProofs.StepKeepsLinked(rs[i].world, A.Fire(es[i].f, es[i].lag));
  }

  lemma AlwaysLinked(cfg: Config, rs: seq<Router>, es: seq<Event>, i: nat)
    requires IsRun(cfg, rs, es) && i < |rs|
    ensures A.Linked(rs[i].world)
  {
    AlwaysInv(cfg, rs, es, i);
  }

  /** In every run the log grows only by fair bursts, made for the senders and answers of that moment. */
  lemma EveryBurstIsFair(cfg: Config, rs: seq<Router>, es: seq<Event>, i: nat)
    requires IsRun(cfg, rs, es) && i < |es| && rs[i + 1].log != rs[i].log
    ensures es[i].RunTask?
    ensures |rs[i + 1].log| == |rs[i].log| + 1 && rs[i].log <= rs[i + 1].log
    ensures rs[i].world.now <= rs[i + 1].log[|rs[i].log|].time
    ensures IsFairBurst(cfg, rs[i].senders, es[i].timing.answers, rs[i + 1].log[|rs[i].log|])
  {
    AfterTheBurst(cfg, rs, es, i);
    AlwaysSorted(cfg, rs, es, i);
    BurstIsLater(cfg, rs, es, i);
    BurstIsFair(cfg, rs[i].senders, es[i].timing.answers, rs[i + 1].lastBurst);
  }

  // ----- no request is lost -----

  /**
   In every run, whenever sender `k` is due at some time, the alarm is armed no later than
   that time, the present, and the earliest time the pacing allows; and a live functor is
   posted to fire it.
   */
  lemma DueIsArmed(cfg: Config, rs: seq<Router>, es: seq<Event>, i: nat, k: nat)
    requires IsRun(cfg, rs, es) && i < |rs| && k < |rs[i].senders|
    requires rs[i].senders[k].Due() != NEVER
    ensures rs[i].world.alarm.task.Some?
    ensures rs[i].world.alarm.alarmTime
            <= Max(rs[i].world.now, Max(rs[i].lastBurst + cfg.interval, rs[i].senders[k].Due()))
    ensures rs[i].world.alarm.queued.Some? && rs[i].world.alarm.nextFire <= rs[i].world.alarm.alarmTime
  {
    AlwaysInv(cfg, rs, es, i);
    MinDueIsMin(rs[i].senders);
  }

  // ----- reports are spaced -----

  /** The sender, if there is one, is not due to report before `limit`. */
  ghost predicate ReportsNotBefore(s: seq<SenderEntry>, ssrc: Ssrc, limit: Time) {
    forall k :: 0 <= k < |s| && s[k].ssrc == ssrc ==> limit <= s[k].nextRtcp
  }

  /** Only an explicit request makes a sender report earlier. */
  lemma StepKeepsPause(cfg: Config, r: Router, e: Event, ssrc: Ssrc, limit: Time)
    requires Enabled(r, e) && limit <= NEVER && ReportsNotBefore(r.senders, ssrc, limit)
    requires !(e.RequestRtcp? && e.ssrc == ssrc)
    ensures ReportsNotBefore(Step(cfg, r, e).senders, ssrc, limit)
  {
    match e
    case SenderCreated(x) =>
      var entry := SenderEntry(x, NEVER, NEVER);
      InsertedElements(r.senders, entry);
      var s' := Insert(r.senders, entry);
      forall k | 0 <= k < |s'| && s'[k].ssrc == ssrc
        ensures limit <= s'[k].nextRtcp
      {
        var added := s'[k];
        assert added in s' && added in r.senders + [entry];
      }
    case _ =>
  }

  lemma PauseAfter(cfg: Config, rs: seq<Router>, es: seq<Event>, m: nat, ssrc: Ssrc, limit: Time)
    requires IsRun(cfg, rs, es) && m < |es| && !(es[m].RequestRtcp? && es[m].ssrc == ssrc)
    requires limit <= NEVER && ReportsNotBefore(rs[m].senders, ssrc, limit)
    ensures ReportsNotBefore(rs[m + 1].senders, ssrc, limit)
  {
    StepKeepsPause(cfg, rs[m], es[m], ssrc, limit);
  }

  lemma {:induction false} PauseLasts(cfg: Config, rs: seq<Router>, es: seq<Event>, i: nat, j: nat, ssrc: Ssrc, limit: Time)
    requires IsRun(cfg, rs, es) && i <= j < |rs|
    requires limit <= NEVER && ReportsNotBefore(rs[i].senders, ssrc, limit)
    requires forall m :: i <= m < j ==> !(es[m].RequestRtcp? && es[m].ssrc == ssrc)
    ensures ReportsNotBefore(rs[j].senders, ssrc, limit)
    decreases j
  {
    if i < j {
      PauseLasts(cfg, rs, es, i, j - 1, ssrc, limit);
      PauseAfter(cfg, rs, es, j - 1, ssrc, limit);
    }
  }

  /** The sender reports in the burst that event `i` makes. */
  ghost predicate Reports(rs: seq<Router>, es: seq<Event>, i: nat, ssrc: Ssrc)
    requires |rs| == |es| + 1 && i < |es|
  {
    |rs[i + 1].log| == |rs[i].log| + 1 && ssrc in rs[i + 1].log[|rs[i].log|].rtcp
  }

  /** A sender that reports was due to, and then pauses for the report interval. */
  lemma ReportingPauses(cfg: Config, s: seq<SenderEntry>, answers: seq<Answer>, t: Time, ssrc: Ssrc)
    requires |s| == |answers| && SortedByPriority(s) && ssrc in RtcpSent(s, answers, t, |s|)
    ensures ReportsNotBefore(AfterBurst(cfg, s, answers, t), ssrc, t + RTCP_REPORT_INTERVAL)
    ensures forall limit :: ReportsNotBefore(s, ssrc, limit) ==> limit <= t
  {
    RtcpOncePerSender(s, answers, t, |s|);
    var k :| 0 <= k < |s| && s[k].ssrc == ssrc;
    assert SendsRtcp(s[k], answers[k], t);
  }

  lemma ReportStartsPause(cfg: Config, rs: seq<Router>, es: seq<Event>, i: nat, ssrc: Ssrc)
    requires IsRun(cfg, rs, es) && i < |es| && Reports(rs, es, i, ssrc)
    ensures var t := rs[i + 1].log[|rs[i].log|].time;
            && t + RTCP_REPORT_INTERVAL <= NEVER
            && ReportsNotBefore(rs[i + 1].senders, ssrc, t + RTCP_REPORT_INTERVAL)
            && forall limit :: ReportsNotBefore(rs[i].senders, ssrc, limit) ==> limit <= t
  {
    AfterTheBurst(cfg, rs, es, i);
    AlwaysSorted(cfg, rs, es, i);
    ReportingPauses(cfg, rs[i].senders, es[i].timing.answers, rs[i + 1].lastBurst, ssrc);
    LastBurstIsPast(cfg, rs, es, i + 1);
  }

  lemma LastBurstIsPast(cfg: Config, rs: seq<Router>, es: seq<Event>, i: nat)
    requires IsRun(cfg, rs, es) && i < |rs|
    ensures rs[i].lastBurst <= rs[i].world.now
  {
    AlwaysInv(cfg, rs, es, i);
  }

  /** In every run two reports of a sender that did not ask for them are half a second apart. */
  lemma ReportsAreSpaced(cfg: Config, rs: seq<Router>, es: seq<Event>, i: nat, j: nat, ssrc: Ssrc)
    requires IsRun(cfg, rs, es) && i < j < |es| && Reports(rs, es, i, ssrc) && Reports(rs, es, j, ssrc)
    requires forall m :: i < m < j ==> !(es[m].RequestRtcp? && es[m].ssrc == ssrc)
    ensures rs[i + 1].log[|rs[i].log|].time + RTCP_REPORT_INTERVAL <= rs[j + 1].log[|rs[j].log|].time
  {
    ReportStartsPause(cfg, rs, es, i, ssrc);
    PauseLasts(cfg, rs, es, i + 1, j, ssrc, rs[i + 1].log[|rs[i].log|].time + RTCP_REPORT_INTERVAL);
    ReportStartsPause(cfg, rs, es, j, ssrc);
  }
}

/** When each sender is due, told from the events and the packets sent; and that every request is served. */
module RouterRequests {
  import opened Common
  import opened RouterSpec
  import opened RouterProofs
  import opened RouterLatency
  import A = AlarmSpec

  /** When a sender is due, if it is registered. */
  ghost function DueOf(s: seq<SenderEntry>, ssrc: Ssrc, kind: Kind): Option<Time> {
    if Find(s, ssrc) < |s| then Some(DueFor(s[Find(s, ssrc)], kind)) else None
  }

  lemma FoundInSorted(s: seq<SenderEntry>, k: nat)
    requires SortedByPriority(s) && k < |s|
    ensures Find(s, s[k].ssrc) == k
  {
    var i := Find(s, s[k].ssrc);
    assert i < |s| && s[i].ssrc == s[k].ssrc;
  }

  lemma DueOfMember(s: seq<SenderEntry>, e: SenderEntry, kind: Kind)
    requires SortedByPriority(s) && e in s
    ensures DueOf(s, e.ssrc, kind) == Some(DueFor(e, kind))
  {
    var k :| 0 <= k < |s| && s[k] == e;
    FoundInSorted(s, k);
  }

  // ----- creation, destruction and requests -----

  lemma CreationSetsDue(s: seq<SenderEntry>, created: Ssrc, ssrc: Ssrc, kind: Kind)
    requires SortedByPriority(s) && Find(s, created) == |s|
    ensures DueOf(Insert(s, SenderEntry(created, NEVER, NEVER)), ssrc, kind)
            == if ssrc == created then Some(NEVER) else DueOf(s, ssrc, kind)
  {
    var e := SenderEntry(created, NEVER, NEVER);
    var s' := Insert(s, e);
    InsertKeepsSorted(s, e);
    InsertedElements(s, e);
    forall k | 0 <= k < |s'|
      ensures s'[k] == e || s'[k] in s
    {
      var x := s'[k];
      assert x in s' && x in s + [e];
    }
    if ssrc == created {
      assert e in s + [e];
      DueOfMember(s', e, kind);
    } else if Find(s, ssrc) < |s| {
      var x := s[Find(s, ssrc)];
      assert x in s + [e];
      DueOfMember(s', x, kind);
    }
  }

  lemma Remaining(s: seq<SenderEntry>, i: nat)
    requires SortedByPriority(s) && i < |s|
    ensures var s' := s[..i] + s[i + 1..];
            && SortedByPriority(s')
            && (forall k :: 0 <= k < |s'| ==> s'[k].ssrc != s[i].ssrc && s'[k] in s)
            && (forall j :: 0 <= j < |s| && j != i ==> s[j] in s')
  {
    var s' := s[..i] + s[i + 1..];
    RemoveKeepsSorted(s, i);
    assert forall k :: 0 <= k < |s'| ==> s'[k] == s[if k < i then k else k + 1];
    forall j | 0 <= j < |s| && j != i
      ensures s[j] in s'
    {
      assert s'[if j < i then j else j - 1] == s[j];
    }
  }

  lemma DestructionEndsDue(s: seq<SenderEntry>, i: nat, ssrc: Ssrc, kind: Kind)
    requires SortedByPriority(s) && i < |s|
    ensures DueOf(s[..i] + s[i + 1..], ssrc, kind) == if ssrc == s[i].ssrc then None else DueOf(s, ssrc, kind)
  {
    Remaining(s, i);
    var j := Find(s, ssrc);
    if ssrc != s[i].ssrc && j < |s| {
      DueOfMember(s[..i] + s[i + 1..], s[j], kind);
    }
  }

  /** The entry of one sender is replaced. */
  lemma UpdateSetsDue(s: seq<SenderEntry>, i: nat, entry: SenderEntry, ssrc: Ssrc, kind: Kind)
    requires SortedByPriority(s) && i < |s| && entry.ssrc == s[i].ssrc
    ensures DueOf(s[i := entry], ssrc, kind) == if ssrc == s[i].ssrc then Some(DueFor(entry, kind)) else DueOf(s, ssrc, kind)
  {
    SameFind(s, s[i := entry], ssrc);
    FoundInSorted(s, i);
  }

  lemma {:induction false} SameFind(s: seq<SenderEntry>, t: seq<SenderEntry>, ssrc: Ssrc)
    requires |s| == |t| && forall i :: 0 <= i < |s| ==> s[i].ssrc == t[i].ssrc
    ensures Find(s, ssrc) == Find(t, ssrc)
  {
    if s != [] && s[0].ssrc != ssrc {
      SameFind(s[1..], t[1..], ssrc);
    }
  }

  // ----- bursts -----

  /** How many of the packets belong to senders of higher priority, which have the smaller SSRCs. */
  ghost function PacketsAbove(packets: seq<Ssrc>, ssrc: Ssrc): nat {
    if packets == [] then 0
    else PacketsAbove(packets[..|packets| - 1], ssrc) + if packets[|packets| - 1] < ssrc then 1 else 0
  }

  lemma {:induction false} AllAbove(packets: seq<Ssrc>, ssrc: Ssrc)
    requires forall i :: 0 <= i < |packets| ==> packets[i] < ssrc
    ensures PacketsAbove(packets, ssrc) == |packets|
  {
    if packets != [] {
      AllAbove(packets[..|packets| - 1], ssrc);
    }
  }

  lemma {:induction false} NoneAboveAppended(packets: seq<Ssrc>, x: Ssrc, n: nat, ssrc: Ssrc)
    requires ssrc <= x
    ensures PacketsAbove(packets + Copies(x, n), ssrc) == PacketsAbove(packets, ssrc)
  {
    if n == 0 {
      assert packets + Copies(x, 0) == packets;
    } else {
      NoneAboveAppended(packets, x, n - 1, ssrc);
      assert (packets + Copies(x, n))[..|packets| + n - 1] == packets + Copies(x, n - 1);
    }
  }

  /** Those above sender `k` are the senders before it in the list. */
  lemma {:induction false} PacketsAboveAreBefore(s: seq<SenderEntry>, answers: seq<Answer>, t: Time, budget: int, k: nat, n: nat)
    requires k <= n <= |s| == |answers| && k < |s| && SortedByPriority(s)
    ensures PacketsAbove(RtpSent(s, answers, t, budget, n), s[k].ssrc) == |RtpSent(s, answers, t, budget, k)|
    decreases n
  {
    if n == k {
      var before := RtpSent(s, answers, t, budget, k);
      RtpInPriorityOrder(s, answers, t, budget, k);
      forall i | 0 <= i < |before|
        ensures before[i] < s[k].ssrc
      {
        var x := before[i];
        assert x in before && HasSender(s, k, x);
      }
      AllAbove(before, s[k].ssrc);
    } else {
      PacketsAboveAreBefore(s, answers, t, budget, k, n - 1);
      NoneAboveAppended(RtpSent(s, answers, t, budget, n - 1), s[n - 1].ssrc, RtpShare(s, answers, t, budget, n - 1), s[k].ssrc);
    }
  }

  /** A sender gets its RTP turn exactly if it is due and those above it have left some of the budget. */
  lemma TurnIffBudgetLeft(s: seq<SenderEntry>, answers: seq<Answer>, t: Time, budget: int, k: nat)
    requires k < |s| == |answers| && SortedByPriority(s)
    ensures Served(s, answers, t, budget, k) <==>
              s[k].nextRtp <= t && PacketsAbove(RtpSent(s, answers, t, budget, |s|), s[k].ssrc) < budget
  {
    PacketsAboveAreBefore(s, answers, t, budget, k, |s|);
    RtpUsesBudget(s, answers, t, budget, k);
  }

  /** When sender `k` is due after a burst, told from the packets that were sent. */
  ghost function DueAfterBurst(cfg: Config, s: seq<SenderEntry>, answers: seq<Answer>, b: Burst, k: nat, kind: Kind): Time
    requires k < |s| == |answers|
  {
    match kind
    case Rtcp => if s[k].ssrc in b.rtcp then b.time + 500_000 else s[k].nextRtcp
    case Rtp =>
      if s[k].nextRtp <= b.time && PacketsAbove(b.rtp, s[k].ssrc) < cfg.maxPackets - |b.rtcp|
      then answers[k].resume else s[k].nextRtp
  }

  lemma EntryIsDue(cfg: Config, s: seq<SenderEntry>, answers: seq<Answer>, t: Time, k: nat, kind: Kind)
    requires k < |s| == |answers| && SortedByPriority(s)
    ensures DueFor(AfterBurst(cfg, s, answers, t)[k], kind)
            == DueAfterBurst(cfg, s, answers, BurstAt(cfg, s, answers, t), k, kind)
  {
    match kind
    case Rtcp => RtcpIffDue(s, answers, t, |s|, k);
    case Rtp => TurnIffBudgetLeft(s, answers, t, cfg.maxPackets - |RtcpSent(s, answers, t, |s|)|, k);
  }

  lemma BurstSetsDue(cfg: Config, s: seq<SenderEntry>, answers: seq<Answer>, t: Time, k: nat, kind: Kind)
    requires k < |s| == |answers| && SortedByPriority(s)
    ensures DueOf(AfterBurst(cfg, s, answers, t), s[k].ssrc, kind)
            == Some(DueAfterBurst(cfg, s, answers, BurstAt(cfg, s, answers, t), k, kind))
  {
    EntryIsDue(cfg, s, answers, t, k, kind);
    BurstKeepsOrder(cfg, s, answers, t);
    FoundInSorted(AfterBurst(cfg, s, answers, t), k);
  }

  // ----- every due time in every run -----

  /**
   In every run a sender's two due times are set by its creation, by a request of that kind for
   that sender, and by bursts as DueAfterBurst says; by nothing else.
   */
  lemma DueTimesFollowEvents(cfg: Config, rs: seq<Router>, es: seq<Event>, i: nat, ssrc: Ssrc, kind: Kind)
    requires IsRun(cfg, rs, es) && i < |es|
    ensures var before, after := DueOf(rs[i].senders, ssrc, kind), DueOf(rs[i + 1].senders, ssrc, kind);
            match es[i]
            case SenderCreated(x) => after == if x == ssrc then Some(NEVER) else before
            case SenderDestroyed(x) => after == if x == ssrc then None else before
            case RequestRtcp(x, _) => after == if x == ssrc && kind.Rtcp? then Some(IMMEDIATELY) else before
            case RequestRtp(x, _) => after == if x == ssrc && kind.Rtp? then Some(IMMEDIATELY) else before
            case RunTask(_, _, timing) => (before.Some? && IsBurst(rs, i)) || after == before
            case _ => after == before
    ensures IsBurst(rs, i) ==>
              && es[i].RunTask? && |es[i].timing.answers| == |rs[i].senders| && |rs[i + 1].log| == |rs[i].log| + 1
              && forall k :: 0 <= k < |rs[i].senders| ==>
                   DueOf(rs[i + 1].senders, rs[i].senders[k].ssrc, kind)
                   == Some(DueAfterBurst(cfg, rs[i].senders, es[i].timing.answers, rs[i + 1].log[|rs[i].log|], k, kind))
  {
    AlwaysSorted(cfg, rs, es, i);
    if IsBurst(rs, i) {
      DueTimesAfterBurst(cfg, rs, es, i, ssrc, kind);
    } else {
      DueTimesWithoutBurst(cfg, rs[i], es[i], ssrc, kind);
    }
  }

  lemma DueTimesAfterBurst(cfg: Config, rs: seq<Router>, es: seq<Event>, i: nat, ssrc: Ssrc, kind: Kind)
    requires IsRun(cfg, rs, es) && i < |es| && IsBurst(rs, i) && SortedByPriority(rs[i].senders)
    ensures es[i].RunTask? && |es[i].timing.answers| == |rs[i].senders| && |rs[i + 1].log| == |rs[i].log| + 1
    ensures DueOf(rs[i].senders, ssrc, kind).None? ==> DueOf(rs[i + 1].senders, ssrc, kind).None?
    ensures forall k :: 0 <= k < |rs[i].senders| ==>
              DueOf(rs[i + 1].senders, rs[i].senders[k].ssrc, kind)
              == Some(DueAfterBurst(cfg, rs[i].senders, es[i].timing.answers, rs[i + 1].log[|rs[i].log|], k, kind))
  {
    AfterTheBurst(cfg, rs, es, i);
    var s, answers, t := rs[i].senders, es[i].timing.answers, rs[i + 1].lastBurst;
    SameFind(s, rs[i + 1].senders, ssrc);
    forall k | 0 <= k < |s|
      ensures DueOf(rs[i + 1].senders, s[k].ssrc, kind)
              == Some(DueAfterBurst(cfg, s, answers, rs[i + 1].log[|rs[i].log|], k, kind))
    {
      BurstSetsDue(cfg, s, answers, t, k, kind);
    }
  }

  lemma RequestSetsDue(cfg: Config, r: Router, e: Event, ssrc: Ssrc, kind: Kind)
    requires SortedByPriority(r.senders) && Enabled(r, e) && (e.RequestRtcp? || e.RequestRtp?)
    ensures DueOf(Step(cfg, r, e).senders, ssrc, kind)
            == if Asks(e, ssrc, kind) then Some(IMMEDIATELY) else DueOf(r.senders, ssrc, kind)
  {
    var i := Find(r.senders, e.ssrc);
    var entry := if e.RequestRtcp? then r.senders[i].(nextRtcp := IMMEDIATELY) else r.senders[i].(nextRtp := IMMEDIATELY);
    FoundInSorted(r.senders, i);
    UpdateSetsDue(r.senders, i, entry, ssrc, kind);
  }

  lemma DueTimesWithoutBurst(cfg: Config, r: Router, e: Event, ssrc: Ssrc, kind: Kind)
    requires SortedByPriority(r.senders) && Enabled(r, e) && Step(cfg, r, e).log == r.log
    ensures var before, after := DueOf(r.senders, ssrc, kind), DueOf(Step(cfg, r, e).senders, ssrc, kind);
            match e
            case SenderCreated(x) => after == if x == ssrc then Some(NEVER) else before
            case SenderDestroyed(x) => after == if x == ssrc then None else before
            case RequestRtcp(x, _) => after == if x == ssrc && kind.Rtcp? then Some(IMMEDIATELY) else before
            case RequestRtp(x, _) => after == if x == ssrc && kind.Rtp? then Some(IMMEDIATELY) else before
            case _ => after == before
  {
    match e
    case SenderCreated(x) => CreationSetsDue(r.senders, x, ssrc, kind);
    case SenderDestroyed(x) => DestructionEndsDue(r.senders, Find(r.senders, x), ssrc, kind);
    case RequestRtcp(_, _) => RequestSetsDue(cfg, r, e, ssrc, kind);
    case RequestRtp(_, _) => RequestSetsDue(cfg, r, e, ssrc, kind);
    case RunTask(f, lag, timing) => LogGrowsByBurst(cfg, r, f, lag, timing);
    case _ =>
  }

  // ----- requests -----

  /** The event asks for a packet of that kind for that sender. */
  ghost predicate Asks(e: Event, ssrc: Ssrc, kind: Kind) {
    match kind
    case Rtcp => e.RequestRtcp? && e.ssrc == ssrc
    case Rtp => e.RequestRtp? && e.ssrc == ssrc
  }

  lemma RequestMakesDue(cfg: Config, rs: seq<Router>, es: seq<Event>, i: nat, ssrc: Ssrc, kind: Kind)
    requires IsRun(cfg, rs, es) && i < |es| && Asks(es[i], ssrc, kind)
    ensures IsDueBy(rs[i + 1].senders, ssrc, kind, IMMEDIATELY)
  {
    DueTimesFollowEvents(cfg, rs, es, i, ssrc, kind);
    var s := rs[i + 1].senders;
    assert DueFor(s[Find(s, ssrc)], kind) == IMMEDIATELY;
  }

  /**
   No request is lost.  In every run, from the request until the next burst the sender stays due
   at once, and the alarm is armed for as soon as the pacing allows, with a live functor posted.
   */
  lemma NoRequestLost(cfg: Config, rs: seq<Router>, es: seq<Event>, i: nat, j: nat, ssrc: Ssrc, kind: Kind)
    requires IsRun(cfg, rs, es) && i < j < |rs| && Asks(es[i], ssrc, kind) && Waits(rs, es, i + 1, j, ssrc)
    ensures IsDueBy(rs[j].senders, ssrc, kind, IMMEDIATELY)
    ensures rs[j].world.alarm.task.Some?
    ensures rs[j].world.alarm.alarmTime <= Max(rs[j].world.now, rs[j].lastBurst + cfg.interval)
    ensures rs[j].world.alarm.queued.Some? && rs[j].world.alarm.nextFire <= rs[j].world.alarm.alarmTime
  {
    RequestMakesDue(cfg, rs, es, i, ssrc, kind);
    StillDue(cfg, rs, es, i + 1, j, ssrc, kind, IMMEDIATELY);
    var s := rs[j].senders;
    var k :| 0 <= k < |s| && s[k].ssrc == ssrc && DueFor(s[k], kind) <= IMMEDIATELY;
    DueIsArmed(cfg, rs, es, j, k);
    LastBurstInRange(cfg, rs, es, j);
  }

  lemma LastBurstInRange(cfg: Config, rs: seq<Router>, es: seq<Event>, i: nat)
    requires IsRun(cfg, rs, es) && i < |rs|
    ensures IMMEDIATELY <= rs[i].world.now
  {
    assert ClockInRange(cfg, rs[i].world.now);
  }

  /**
   Every request is served.  In every run, once the task runner has caught up with the time when
   the pacing first allowed a burst after the request, and with the longest lag, there was a burst
   for which the sender was due in that kind, unless it was destroyed: its report was sent if it
   had one, and some of its media unless it had none or others used the whole budget.
   */
  lemma RequestIsServed(cfg: Config, rs: seq<Router>, es: seq<Event>, i: nat, j: nat, ssrc: Ssrc, kind: Kind, limit: nat)
      returns (m: nat)
    requires IsRun(cfg, rs, es) && i < j < |rs| && Asks(es[i], ssrc, kind)
    requires forall k :: 0 <= k < j ==> LagsAtMost(es[k], limit)
    requires forall k :: i < k < j ==> es[k] != SenderDestroyed(ssrc)
    requires CaughtUp(rs[j])
    requires Max(rs[i + 1].world.now, rs[i + 1].lastBurst + cfg.interval) + limit <= rs[j].world.now
    ensures i < m < j && BurstWhenDue(rs, m, ssrc, kind)
    ensures es[m].RunTask? && |es[m].timing.answers| == |rs[m].senders| && |rs[m + 1].log| == |rs[m].log| + 1
    ensures IsServed(cfg, rs[m].senders, es[m].timing.answers, rs[m + 1].log[|rs[m].log|], ssrc, kind)
  {
    RequestMakesDue(cfg, rs, es, i, ssrc, kind);
    LastBurstInRange(cfg, rs, es, i + 1);
    var busy := LongestBurst(rs, j);
    m := DueSenderIsServed(cfg, rs, es, i + 1, j, ssrc, kind, IMMEDIATELY, limit, busy);
  }

  // ----- when bursts are planned -----

  /** The earliest time when any sender is due. */
  ghost predicate IsEarliestDue(s: seq<SenderEntry>, d: Time) {
    && (forall k :: 0 <= k < |s| ==> d <= s[k].nextRtcp && d <= s[k].nextRtp)
    && (exists k :: 0 <= k < |s| && (s[k].nextRtcp == d || s[k].nextRtp == d))
  }

  /** The event plans the next burst anew. */
  ghost predicate Plans(rs: seq<Router>, es: seq<Event>, i: nat)
    requires i < |es| < |rs|
  {
    es[i].RequestRtcp? || es[i].RequestRtp? || IsBurst(rs, i)
  }

  /** What planning sets the alarm for, with the clock at `now`. */
  ghost predicate IsPlanOf(cfg: Config, r: Router, now: Time) {
    if r.world.alarm.task.Some?
    then exists d :: IsEarliestDue(r.senders, d) && r.world.alarm.alarmTime == Max(now, Max(r.lastBurst + cfg.interval, d))
    else forall k :: 0 <= k < |r.senders| ==> r.senders[k].nextRtcp == NEVER && r.senders[k].nextRtp == NEVER
  }

  lemma PlanIsExact(cfg: Config, r: Router, lag: nat)
    requires cfg.Valid() && WellFormedSenders(r.senders) && r.lastBurst + cfg.interval < NEVER
    ensures IsPlanOf(cfg, ScheduleNextBurst(cfg, r, lag), r.world.now)
  {
    MinDueIsMin(r.senders);
    if MinDue(r.senders) < NEVER {
      MinIsEarliest(r.senders);
    }
  }

  lemma MinIsEarliest(s: seq<SenderEntry>)
    requires WellFormedSenders(s) && MinDue(s) < NEVER
    ensures IsEarliestDue(s, MinDue(s))
  {
    MinDueIsMin(s);
    var d := MinDue(s);
    var k :| 0 <= k < |s| && s[k].Due() == d;
    assert s[k].nextRtcp == d || s[k].nextRtp == d;
    assert forall j :: 0 <= j < |s| ==> d <= s[j].Due();
  }

  /**
   In every run a request or a burst plans the next burst for exactly the earliest due time, or
   as soon after it as the pacing allows; and for none only if nobody is ever due.
   */
  lemma PlansAreExact(cfg: Config, rs: seq<Router>, es: seq<Event>, i: nat) returns (now: Time)
    requires IsRun(cfg, rs, es) && i < |es| && Plans(rs, es, i)
    ensures rs[i].world.now <= now <= rs[i + 1].world.now && IsPlanOf(cfg, rs[i + 1], now)
  {
    AlwaysInv(cfg, rs, es, i);
    if IsBurst(rs, i) {
      AlwaysInv(cfg, rs, es, i + 1);
      now := BurstPlanIsExact(cfg, rs, es, i);
    } else {
      now := rs[i].world.now;
      RequestPlanIsExact(cfg, rs[i], es[i]);
    }
  }

  lemma RequestPlanIsExact(cfg: Config, r: Router, e: Event)
    requires cfg.Valid() && Inv(cfg, r) && ClockInRange(cfg, r.world.now)
    requires Enabled(r, e) && (e.RequestRtcp? || e.RequestRtp?)
    ensures IsPlanOf(cfg, Step(cfg, r, e), r.world.now) && r.world.now <= Step(cfg, r, e).world.now
  {
    var k := Find(r.senders, e.ssrc);
    var entry := if e.RequestRtcp? then r.senders[k].(nextRtcp := IMMEDIATELY) else r.senders[k].(nextRtp := IMMEDIATELY);
    var r' := r.(senders := r.senders[k := entry]);
    PlanIsExact(cfg, r', e.lag);
    ClockAdvances(cfg, r', e.lag);
  }

  lemma BurstPlanIsExact(cfg: Config, rs: seq<Router>, es: seq<Event>, i: nat) returns (now: Time)
    requires IsRun(cfg, rs, es) && i < |es| && IsBurst(rs, i) && Inv(cfg, rs[i]) && Inv(cfg, rs[i + 1])
    ensures rs[i].world.now <= now <= rs[i + 1].world.now && IsPlanOf(cfg, rs[i + 1], now)
  {
    AfterTheBurst(cfg, rs, es, i);
    BurstIsLater(cfg, rs, es, i);
    var timing := es[i].timing;
    var fired := A.Step(rs[i].world, A.Fire(es[i].f, es[i].lag));
    var r := Transmit(cfg, AtBurst(rs[i], fired.world, timing), timing.answers, timing.spent);
    now := r.world.now;
    ClockAdvances(cfg, r, timing.lag);
    assert rs[i + 1].senders == r.senders;
    PlanIsExact(cfg, r, timing.lag);
  }

  /** Some sender is due by the time. */
  ghost predicate SomebodyDue(s: seq<SenderEntry>, t: Time) {
    exists k :: 0 <= k < |s| && (s[k].nextRtcp <= t || s[k].nextRtp <= t)
  }

  /** Since its latest plan before state `i` the router has lost a sender. */
  ghost predicate LostSender(rs: seq<Router>, es: seq<Event>, i: nat)
    requires i <= |es| < |rs|
  {
    exists m :: 0 <= m < i && es[m].SenderDestroyed? && forall k :: m < k < i ==> !Plans(rs, es, k)
  }

  lemma PlanIsForSomebody(cfg: Config, r: Router, now: Time)
    requires IsPlanOf(cfg, r, now) && r.world.alarm.task.Some?
    ensures SomebodyDue(r.senders, r.world.alarm.alarmTime)
  {
    var d :| IsEarliestDue(r.senders, d) && r.world.alarm.alarmTime == Max(now, Max(r.lastBurst + cfg.interval, d));
  }

  lemma {:induction false} PlannedForSomebody(cfg: Config, rs: seq<Router>, es: seq<Event>, i: nat)
    requires IsRun(cfg, rs, es) && i <= |es| && rs[i].world.alarm.task.Some?
    ensures LostSender(rs, es, i) || SomebodyDue(rs[i].senders, rs[i].world.alarm.alarmTime)
  {
    if i > 0 {
      if Plans(rs, es, i - 1) {
        var now := PlansAreExact(cfg, rs, es, i - 1);
        PlanIsForSomebody(cfg, rs[i], now);
      } else {
        TaskWasThere(cfg, rs, es, i - 1);
        PlannedForSomebody(cfg, rs, es, i - 1);
        StillForSomebody(cfg, rs, es, i - 1);
      }
    }
  }

  /** Nothing but planning and the start of a burst touches the alarm's task. */
  lemma TaskWasThere(cfg: Config, rs: seq<Router>, es: seq<Event>, m: nat)
    requires IsRun(cfg, rs, es) && m < |es| && !Plans(rs, es, m) && rs[m + 1].world.alarm.task.Some?
    ensures rs[m].world.alarm.task == rs[m + 1].world.alarm.task
    ensures rs[m].world.alarm.alarmTime == rs[m + 1].world.alarm.alarmTime
  {
    if es[m].RunTask? {
      LogGrowsByBurst(cfg, rs[m], es[m].f, es[m].lag, es[m].timing);
    }
  }

  lemma StillForSomebody(cfg: Config, rs: seq<Router>, es: seq<Event>, m: nat)
    requires IsRun(cfg, rs, es) && m < |es| && !Plans(rs, es, m)
    ensures LostSender(rs, es, m) ==> LostSender(rs, es, m + 1)
    ensures forall t :: SomebodyDue(rs[m].senders, t) ==> SomebodyDue(rs[m + 1].senders, t) || LostSender(rs, es, m + 1)
  {
    if LostSender(rs, es, m) {
      var k :| 0 <= k < m && es[k].SenderDestroyed? && forall n :: k < n < m ==> !Plans(rs, es, n);
      assert forall n :: k < n < m + 1 ==> !Plans(rs, es, n);
    }
    match es[m]
    case SenderDestroyed(_) => assert LostSender(rs, es, m + 1);
    case SenderCreated(x) =>
      forall t | SomebodyDue(rs[m].senders, t)
        ensures SomebodyDue(rs[m + 1].senders, t)
      {
        StillDueAfterCreation(rs[m].senders, x, t);
      }
    case RunTask(f, lag, timing) => LogGrowsByBurst(cfg, rs[m], f, lag, timing);
    case _ =>
  }

  lemma StillDueAfterCreation(s: seq<SenderEntry>, created: Ssrc, t: Time)
    requires SomebodyDue(s, t)
    ensures SomebodyDue(Insert(s, SenderEntry(created, NEVER, NEVER)), t)
  {
    var e := SenderEntry(created, NEVER, NEVER);
    var k :| 0 <= k < |s| && (s[k].nextRtcp <= t || s[k].nextRtp <= t);
    InsertedElements(s, e);
    assert s[k] in s + [e];
    assert s[k] in Insert(s, e);
  }

  /**
   In every run a burst finds somebody due, except after a sender has been destroyed for whom
   it may have been planned: nothing plans anew then.
   */
  lemma BurstsAreWanted(cfg: Config, rs: seq<Router>, es: seq<Event>, i: nat)
    requires IsRun(cfg, rs, es) && i < |es| && IsBurst(rs, i)
    ensures SomebodyDue(rs[i].senders, rs[i + 1].lastBurst) || LostSender(rs, es, i)
  {
    AlwaysLinked(cfg, rs, es, i);
    AfterTheBurst(cfg, rs, es, i);
    BurstIsLater(cfg, rs, es, i);
    LogGrowsByBurst(cfg, rs[i], es[i].f, es[i].lag, es[i].timing);
    PlannedForSomebody(cfg, rs, es, i);
  }
}

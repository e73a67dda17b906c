/**
 cast/streaming/sender_packet_router.cc as a state machine on top of the alarm.

 A Sender is an oracle: at each burst it answers whether it has an RTCP packet, how many
 RTP packets it would hand out before its first empty answer, and when to resume.  What a
 burst sends is given here in closed form; the loops are in RouterImpl.
 */
module RouterSpec {
  import opened Common
  import A = AlarmSpec

  type Ssrc = int

  /** An SSRC that fits a positive int, as the generated ones do. */
  predicate ValidSsrc(ssrc: Ssrc) {
    0 <= ssrc < 0x8000_0000
  }

  const RTCP_REPORT_INTERVAL: Time := 500_000
  const BURST_TASK: A.TaskId := 0

  /** Negative when stream `a` has the higher priority. */
  function ComparePriority(a: Ssrc, b: Ssrc): int {
    a - b
  }

  datatype SenderEntry = SenderEntry(ssrc: Ssrc, nextRtcp: Time, nextRtp: Time) {
    function Due(): Time {
      Min(nextRtcp, nextRtp)
    }
  }

  datatype Config = Config(maxPackets: int, interval: Time) {
    predicate Valid() {
      maxPackets > 0 && interval > 0
    }
  }

  datatype Answer = Answer(rtcp: bool, rtp: nat, resume: Time)

  /** One burst: when it happened, and the SSRC of every packet in sending order. */
  datatype Burst = Burst(time: Time, rtcp: seq<Ssrc>, rtp: seq<Ssrc>)

  datatype Router = Router(
    world: A.World,             // alarm_, the clock and the task runner
    senders: seq<SenderEntry>,  // senders_
    lastBurst: Time,            // last_burst_time_
    log: seq<Burst>             // what was handed to the environment
  )

  function Initial(now: Time): Router {
    Router(A.Initial(now), [], IMMEDIATELY, [])
  }

  // ----- the sender list -----

  ghost predicate SortedByPriority(s: seq<SenderEntry>) {
    forall i, j :: 0 <= i < j < |s| ==> ComparePriority(s[i].ssrc, s[j].ssrc) < 0
  }

  function Find(s: seq<SenderEntry>, ssrc: Ssrc): (i: nat)
    ensures i <= |s|
    ensures i < |s| ==> s[i].ssrc == ssrc
    ensures forall k :: 0 <= k < i ==> s[k].ssrc != ssrc
  {
    if s == [] || s[0].ssrc == ssrc then 0 else 1 + Find(s[1..], ssrc)
  }

  /** Where the list puts an entry for `ssrc`: after all entries of higher priority. */
  function Insert(s: seq<SenderEntry>, e: SenderEntry): seq<SenderEntry> {
    if s == [] || ComparePriority(e.ssrc, s[0].ssrc) < 0 then [e] + s else [s[0]] + Insert(s[1..], e)
  }

  // ----- pacing -----

  function MinDue(s: seq<SenderEntry>): Time {
    if s == [] then NEVER else Min(s[0].Due(), MinDue(s[1..]))
  }

  /** As soon as somebody is due, but not before the pacing allows it. */
  function NextBurstTime(s: seq<SenderEntry>, earliestAllowed: Time): Time {
    if MinDue(s) >= NEVER then NEVER else Max(MinDue(s), earliestAllowed)
  }

  function SetAlarm(w: A.World, next: Time, lag: nat): A.World {
    if next == NEVER then A.CancelTask(w) else A.ScheduleTask(w, BURST_TASK, next, lag)
  }

  function ScheduleNextBurst(cfg: Config, r: Router, lag: nat): Router {
    r.(world := SetAlarm(r.world, NextBurstTime(r.senders, r.lastBurst + cfg.interval), lag))
  }

  // ----- one burst -----

  /** RTCP: every due sender that has a packet sends exactly one. */
  predicate SendsRtcp(e: SenderEntry, a: Answer, t: Time) {
    e.nextRtcp <= t && a.rtcp
  }

  function RtcpSent(s: seq<SenderEntry>, answers: seq<Answer>, t: Time, n: nat): seq<Ssrc>
    requires n <= |s| == |answers|
  {
    if n == 0 then []
    else RtcpSent(s, answers, t, n - 1) + (if SendsRtcp(s[n - 1], answers[n - 1], t) then [s[n - 1].ssrc] else [])
  }

  /** The RTP packets that the due ones among the first `n` senders have ready. */
  function Demand(s: seq<SenderEntry>, answers: seq<Answer>, t: Time, n: nat): nat
    requires n <= |s| == |answers|
  {
    if n == 0 then 0
    else Demand(s, answers, t, n - 1) + (if s[n - 1].nextRtp <= t then answers[n - 1].rtp else 0)
  }

  /** The sender's RTP turn comes while there is budget left. */
  predicate Served(s: seq<SenderEntry>, answers: seq<Answer>, t: Time, budget: int, i: nat)
    requires i < |s| == |answers|
  {
    s[i].nextRtp <= t && Demand(s, answers, t, i) < budget
  }

  function RtpShare(s: seq<SenderEntry>, answers: seq<Answer>, t: Time, budget: int, i: nat): nat
    requires i < |s| == |answers|
  {
    if Served(s, answers, t, budget, i) then Min(answers[i].rtp, budget - Demand(s, answers, t, i)) else 0
  }

  function Copies(ssrc: Ssrc, n: nat): seq<Ssrc> {
    seq(n, _ => ssrc)
  }

  function RtpSent(s: seq<SenderEntry>, answers: seq<Answer>, t: Time, budget: int, n: nat): seq<Ssrc>
    requires n <= |s| == |answers|
  {
    if n == 0 then []
    else RtpSent(s, answers, t, budget, n - 1) + Copies(s[n - 1].ssrc, RtpShare(s, answers, t, budget, n - 1))
  }

  /** What SendBurstOfPackets sends at time `t`. */
  function BurstAt(cfg: Config, s: seq<SenderEntry>, answers: seq<Answer>, t: Time): Burst
    requires |s| == |answers|
  {
    var rtcp := RtcpSent(s, answers, t, |s|);
    Burst(t, rtcp, RtpSent(s, answers, t, cfg.maxPackets - |rtcp|, |s|))
  }

  function EntryAfter(s: seq<SenderEntry>, answers: seq<Answer>, t: Time, budget: int, i: nat): SenderEntry
    requires i < |s| == |answers|
  {
    SenderEntry(
      s[i].ssrc,
      if SendsRtcp(s[i], answers[i], t) then t + RTCP_REPORT_INTERVAL else s[i].nextRtcp,
      if Served(s, answers, t, budget, i) then answers[i].resume else s[i].nextRtp)
  }

  function AfterBurst(cfg: Config, s: seq<SenderEntry>, answers: seq<Answer>, t: Time): (r: seq<SenderEntry>)
    requires |s| == |answers|
    ensures |r| == |s|
  {
    var budget := cfg.maxPackets - |RtcpSent(s, answers, t, |s|)|;
    seq(|s|, i requires 0 <= i < |s| => EntryAfter(s, answers, t, budget, i))
  }

  /** The packets go out, which takes the time `spent`. */
  function Transmit(cfg: Config, r: Router, answers: seq<Answer>, spent: nat): Router
    requires |r.senders| == |answers|
  {
    var t := r.world.now;
    Router(
      r.world.(now := t + spent),
      AfterBurst(cfg, r.senders, answers, t),
      t,
      r.log + [BurstAt(cfg, r.senders, answers, t)])
  }

  /** SendBurstOfPackets. */
  function SendBurst(cfg: Config, r: Router, answers: seq<Answer>, spent: nat, lag: nat): Router
    requires |r.senders| == |answers|
  {
    ScheduleNextBurst(cfg, Transmit(cfg, r, answers, spent), lag)
  }

  // ----- events -----

  datatype Event =
    | Tick(elapsed: nat)
    | SenderCreated(ssrc: Ssrc)
    | SenderDestroyed(ssrc: Ssrc)
    | RequestRtcp(ssrc: Ssrc, lag: nat)
    | RequestRtp(ssrc: Ssrc, lag: nat)
    | RunTask(f: A.FunctorId, lag: nat, timing: BurstTiming)
    | MoveTask(f: A.FunctorId)             // the task runner moves a functor

  /** What happens inside a burst, should the task turn out to be one. */
  datatype BurstTiming = BurstTiming(delay: nat, answers: seq<Answer>, spent: nat, lag: nat)

  predicate Enabled(r: Router, e: Event) {
    match e
    case Tick(_) => true
    case SenderCreated(ssrc) => ValidSsrc(ssrc) && Find(r.senders, ssrc) == |r.senders|
    case SenderDestroyed(ssrc) => Find(r.senders, ssrc) < |r.senders|
    case RequestRtcp(ssrc, _) => Find(r.senders, ssrc) < |r.senders|
    case RequestRtp(ssrc, _) => Find(r.senders, ssrc) < |r.senders|
    case RunTask(f, lag, timing) =>
      && A.Enabled(r.world, A.Fire(f, lag))
      && |timing.answers| == |r.senders|
      && forall i :: 0 <= i < |timing.answers| ==> timing.answers[i].resume <= NEVER
    case MoveTask(f) => A.Enabled(r.world, A.Move(f))
  }

  /** The alarm has started the burst; the burst reads the clock a little later. */
  function AtBurst(r: Router, fired: A.World, timing: BurstTiming): Router {
    r.(world := fired.(now := fired.now + timing.delay))
  }

  function Step(cfg: Config, r: Router, e: Event): Router
    requires Enabled(r, e)
  {
    match e
    case Tick(elapsed) => r.(world := A.Step(r.world, A.Tick(elapsed)).world)
    case SenderCreated(ssrc) => r.(senders := Insert(r.senders, SenderEntry(ssrc, NEVER, NEVER)))
    case SenderDestroyed(ssrc) =>
      var i := Find(r.senders, ssrc);
      r.(senders := r.senders[..i] + r.senders[i + 1..])
    case RequestRtcp(ssrc, lag) =>
      var i := Find(r.senders, ssrc);
      ScheduleNextBurst(cfg, r.(senders := r.senders[i := r.senders[i].(nextRtcp := IMMEDIATELY)]), lag)
    case RequestRtp(ssrc, lag) =>
      var i := Find(r.senders, ssrc);
      ScheduleNextBurst(cfg, r.(senders := r.senders[i := r.senders[i].(nextRtp := IMMEDIATELY)]), lag)
    case RunTask(f, lag, timing) =>
      var fired := A.Step(r.world, A.Fire(f, lag));
      if fired.ran.None? then r.(world := fired.world)
      else SendBurst(cfg, AtBurst(r, fired.world, timing), timing.answers, timing.spent, timing.lag)
    case MoveTask(f) => r.(world := A.Step(r.world, A.Move(f)).world)
  }

  /** The clock stays far enough from its end for the code's additions not to overflow. */
  predicate ClockInRange(cfg: Config, now: Time) {
    IMMEDIATELY <= now && now + cfg.interval + RTCP_REPORT_INTERVAL < NEVER
  }

  ghost predicate IsRun(cfg: Config, rs: seq<Router>, es: seq<Event>) {
    && cfg.Valid()
    && |rs| == |es| + 1
    && rs[0] == Initial(rs[0].world.now)
    && (forall i :: 0 <= i < |rs| ==> ClockInRange(cfg, rs[i].world.now))
    && (forall i {:trigger es[i]} :: 0 <= i < |es| ==> Enabled(rs[i], es[i]) && rs[i + 1] == Step(cfg, rs[i], es[i]))
  }
}

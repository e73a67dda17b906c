/** The rate guarantee by the instants at which packets go out, wherever in their burst these lie. */
module RouterInstants {
  import opened Common
  import opened RouterSpec
  import opened RouterProofs
  import opened RouterLatency
  import A = AlarmSpec

  /** A burst is over before the next one begins. */
  lemma BurstsDoNotOverlap(cfg: Config, rs: seq<Router>, es: seq<Event>, i: nat, j: nat)
    requires IsRun(cfg, rs, es) && i < j < |es| && IsBurst(rs, i) && IsBurst(rs, j)
    ensures es[i].RunTask? && rs[i + 1].lastBurst + es[i].timing.spent <= rs[j + 1].lastBurst
  {
    BurstTakesItsTime(cfg, rs, es, i);
    ClockNeverGoesBack(cfg, rs, es, i + 1, j);
    BurstIsLater(cfg, rs, es, j);
  }

  lemma BurstTakesItsTime(cfg: Config, rs: seq<Router>, es: seq<Event>, i: nat)
    requires IsRun(cfg, rs, es) && i < |es| && IsBurst(rs, i)
    ensures es[i].RunTask? && rs[i + 1].lastBurst + es[i].timing.spent <= rs[i + 1].world.now
  {
    AfterTheBurst(cfg, rs, es, i);
    var fired := A.Step(rs[i].world, A.Fire(es[i].f, es[i].lag));
    var r := Transmit(cfg, AtBurst(rs[i], fired.world, es[i].timing), es[i].timing.answers, es[i].timing.spent);
    ClockAdvances(cfg, r, es[i].timing.lag);
  }

  /** When each RTP packet of each burst goes out: not before its burst begins, nor after the next one does. */
  ghost predicate AreInstants(log: seq<Burst>, instants: seq<seq<Time>>) {
    && |instants| == |log|
    && (forall k :: 0 <= k < |log| ==> |instants[k]| == |log[k].rtp|)
    && (forall k, p :: 0 <= k < |log| && 0 <= p < |instants[k]| ==> log[k].time <= instants[k][p])
    && (forall k, p :: 0 <= k < |log| - 1 && 0 <= p < |instants[k]| ==> instants[k][p] <= log[k + 1].time)
  }

  ghost function Within(ts: seq<Time>, lo: Time, hi: Time): nat {
    if ts == [] then 0 else Within(ts[..|ts| - 1], lo, hi) + if lo <= ts[|ts| - 1] <= hi then 1 else 0
  }

  /** How many packets go out within the window. */
  ghost function SentWithin(instants: seq<seq<Time>>, lo: Time, hi: Time): nat {
    if instants == [] then 0
    else SentWithin(instants[..|instants| - 1], lo, hi) + Within(instants[|instants| - 1], lo, hi)
  }

  lemma {:induction false} AtMostAll(ts: seq<Time>, lo: Time, hi: Time)
    ensures Within(ts, lo, hi) <= |ts|
  {
    if ts != [] {
      AtMostAll(ts[..|ts| - 1], lo, hi);
    }
  }

  lemma {:induction false} NoneWithin(ts: seq<Time>, lo: Time, hi: Time)
    requires forall p :: 0 <= p < |ts| ==> ts[p] < lo || hi < ts[p]
    ensures Within(ts, lo, hi) == 0
  {
    if ts != [] {
      NoneWithin(ts[..|ts| - 1], lo, hi);
    }
  }

  lemma PrefixHasInstants(log: seq<Burst>, instants: seq<seq<Time>>)
    requires AreInstants(log, instants) && log != []
    ensures AreInstants(log[..|log| - 1], instants[..|log| - 1])
  {
  }

  /** All packets of bursts followed by one that begins before the window go out before it. */
  lemma {:induction false} AllBefore(log: seq<Burst>, instants: seq<seq<Time>>, interval: Time, lo: Time, hi: Time, n: nat)
    requires AreInstants(log, instants) && Spaced(log, interval) && interval > 0
    requires n < |log| && log[n].time < lo
    ensures SentWithin(instants[..n], lo, hi) == 0
    decreases n
  {
    if n > 0 {
      AllBefore(log, instants, interval, lo, hi, n - 1);
      assert instants[..n][..n - 1] == instants[..n - 1];
      NoneWithin(instants[n - 1], lo, hi);
    }
  }

  /** Besides the bursts that begin in the window at most one reaches into it. */
  lemma {:induction false} OneReachesIn(cfg: Config, log: seq<Burst>, instants: seq<seq<Time>>, lo: Time, hi: Time)
    requires cfg.Valid() && AreInstants(log, instants) && Spaced(log, cfg.interval)
    requires forall k :: 0 <= k < |log| ==> WithinBudget(cfg, log[k])
    ensures SentWithin(instants, lo, hi) <= (BurstsIn(log, lo, hi) + 1) * cfg.maxPackets
  {
    if log != [] {
      var n := |log| - 1;
      var rest, last := log[..n], log[n];
      PrefixHasInstants(log, instants);
      OneReachesIn(cfg, rest, instants[..n], lo, hi);
      AtMostAll(instants[n], lo, hi);
      assert WithinBudget(cfg, last);
      if last.time < lo {
        AllBefore(log, instants, cfg.interval, lo, hi, n);
        MulMonotone(1, BurstsIn(log, lo, hi) + 1, cfg.maxPackets);
      } else if last.time > hi {
        NoneWithin(instants[n], lo, hi);
      } else {
        OneMore(BurstsIn(rest, lo, hi) + 1, cfg.maxPackets);
      }
    }
  }

  lemma OneMore(n: nat, d: nat)
    ensures (n + 1) * d == n * d + d
  {
  }

  lemma WindowByInstants(cfg: Config, log: seq<Burst>, instants: seq<seq<Time>>, lo: Time, width: nat)
    requires cfg.Valid() && AreInstants(log, instants) && Spaced(log, cfg.interval)
    requires forall k :: 0 <= k < |log| ==> WithinBudget(cfg, log[k])
    ensures SentWithin(instants, lo, lo + width) <= (width / cfg.interval + 2) * cfg.maxPackets
  {
    OneReachesIn(cfg, log, instants, lo, lo + width);
    WindowHoldsFewBursts(log, cfg.interval, lo, lo + width);
    OneBurstMore(BurstsIn(log, lo, lo + width), cfg.interval, width, cfg.maxPackets);
  }

  lemma OneBurstMore(n: nat, interval: nat, width: nat, max: nat)
    requires interval > 0 && (n > 0 ==> (n - 1) * interval <= width)
    ensures (n + 1) * max <= (width / interval + 2) * max
  {
    CountTimesMax(n, interval, width, max);
    OneMore(n, max);
    OneMore(width / interval + 1, max);
  }

  /**
   In every run, a window of length `width` sees at most `width / interval + 2` bursts' worth of
   RTP packets go out, whenever within their bursts they do.
   */
  lemma RateByInstants(cfg: Config, rs: seq<Router>, es: seq<Event>, i: nat, instants: seq<seq<Time>>, lo: Time, width: nat)
    requires IsRun(cfg, rs, es) && i < |rs| && AreInstants(rs[i].log, instants)
    ensures SentWithin(instants, lo, lo + width) <= (width / cfg.interval + 2) * cfg.maxPackets
  {
    AlwaysInv(cfg, rs, es, i);
    WindowByInstants(cfg, rs[i].log, instants, lo, width);
  }
}

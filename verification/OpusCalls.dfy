/** What each call of the encoder adds to the log, told from the calls and the log so far. */
module OpusCalls {
  import opened Common
  import opened OpusSpec
  import opened OpusProofs

  /** The reference time of the last frame sent, or one frame before the first call. */
  ghost function LastReference(c: Config, log: seq<Entry>, start: Time): Time {
    if log == [] then start - c.frameDuration
    else if log[|log| - 1].Encoded? then log[|log| - 1].reference
    else LastReference(c, log[..|log| - 1], start)
  }

  /** The call's position on the RTP timeline, which the first call starts. */
  ghost function PositionAt(c: Config, es: seq<Event>, i: nat): int
    requires i < |es|
  {
    c.toTicks(NowOf(es[i]) - NowOf(es[0]))
  }

  /** The call comes more than three frames after the audio so far, of which `count` samples are queued. */
  ghost predicate IsBehind(c: Config, es: seq<Event>, i: nat, log: seq<Entry>, count: nat)
    requires i < |es|
  {
    i > 0 && Position(c, log).Some? && PositionAt(c, es, i) - (Position(c, log).value + count) > 3 * c.samplesPerFrame
  }

  lemma ResolveIsExact(c: Config, s: Encoder, now: Time)
    ensures var s' := Resolve(c, s, now);
            && s'.startTime == (if s.startTime == IMMEDIATELY then now else s.startTime)
            && s'.lastSent == (if s.startTime == IMMEDIATELY then now - c.frameDuration else s.lastSent)
  {
  }

  lemma {:induction false} FeedKeepsLast(c: Config, s: Encoder, xs: seq<real>, n: nat, begin: Time, end: Time, start: Time)
    requires ValidConfig(c) && IsBatch(c, xs, n) && s.count < c.samplesPerFrame
    requires s.lastSent == LastReference(c, s.log, start)
    ensures var s' := Feed(c, s, xs, n, begin, end);
            s'.startTime == s.startTime && s'.lastSent == LastReference(c, s'.log, start)
    decreases n
  {
    if s.count + n < c.samplesPerFrame {
      NoFrame(c, s, xs, n, begin, end);
    } else {
      var s2, rest := FirstFrame(c, s, xs, n, begin, end);
      FeedKeepsLast(c, s2, rest, n - (c.samplesPerFrame - s.count), begin, end, start);
    }
  }

  lemma SkipKeepsLast(c: Config, log: seq<Entry>, samples: seq<real>, resume: int, start: Time)
    ensures LastReference(c, log + [Skipped(samples, resume)], start) == LastReference(c, log, start)
  {
    assert (log + [Skipped(samples, resume)])[..|log|] == log;
  }

  lemma StepKeepsLast(c: Config, s: Encoder, e: Event, start: Time)
    requires ValidConfig(c) && Enabled(c, e) && Inv(c, s)
    requires s.startTime == IMMEDIATELY || (s.startTime == start && s.lastSent == LastReference(c, s.log, start))
    requires s.startTime == IMMEDIATELY ==> start == NowOf(e)
    ensures Step(c, s, e).startTime == start && Step(c, s, e).lastSent == LastReference(c, Step(c, s, e).log, start)
  {
    var r := Resolve(c, s, NowOf(e));
    ResolveKeepsInv(c, s, NowOf(e));
    ResolveIsExact(c, s, NowOf(e));
    SkipKeepsLast(c, s.log, s.queued, c.toTicks(NowOf(e) - s.startTime), start);
    FeedKeepsLast(c, r, e.xs, e.n, e.begin, e.end, start);
  }

  /** In every run the timelines start at the first call, and what was last sent is in the log. */
  lemma {:induction false} StartsAtFirstCall(c: Config, ss: seq<Encoder>, es: seq<Event>, i: nat)
    requires IsRun(c, ss, es) && 0 < i < |ss|
    ensures ss[i].startTime == NowOf(es[0]) != IMMEDIATELY
    ensures ss[i].lastSent == LastReference(c, ss[i].log, NowOf(es[0]))
  {
    if i > 1 {
      StartsAtFirstCall(c, ss, es, i - 1);
    }
    AlwaysInv(c, ss, es, i - 1);
    StepKeepsLast(c, ss[i - 1], es[i - 1], NowOf(es[0]));
  }

  /** What a call adds when it starts from these samples, with the first of them at these times. */
  ghost function Added(c: Config, e: Event, queued: seq<real>, rtp: int, reference: Time): seq<Entry>
    requires ValidConfig(c)
  {
    Chunks(c, queued + e.xs, rtp, reference, e.begin, e.end)
  }

  lemma StepAdds(c: Config, s: Encoder, e: Event)
    requires ValidConfig(c) && Enabled(c, e) && Inv(c, s)
    ensures var r := Resolve(c, s, NowOf(e));
            Step(c, s, e).log == r.log + Added(c, e, r.queued, r.rtp, r.reference)
  {
    StepSendsChunks(c, s, e);
  }

  /** The first call starts with no log and nothing queued. */
  lemma FirstCallAdds(c: Config, e: Event)
    requires ValidConfig(c) && Enabled(c, e)
    ensures Step(c, Initial(), e).log == Added(c, e, [], 0, NowOf(e))
  {
    assert IsBatch(c, [], 0);
    StepAdds(c, Initial(), e);
    assert [] + Added(c, e, [], 0, NowOf(e)) == Added(c, e, [], 0, NowOf(e));
  }

  lemma LaterCallAdds(c: Config, s: Encoder, e: Event)
    requires ValidConfig(c) && Enabled(c, e) && Inv(c, s) && s.startTime != IMMEDIATELY
    ensures var position, earliest := c.toTicks(NowOf(e) - s.startTime), s.lastSent + c.toDuration(1);
            Step(c, s, e).log ==
              if position - (s.rtp + s.count) > 3 * c.samplesPerFrame
              then s.log + [Skipped(s.queued, position)]
                   + Added(c, e, [], position, Max(NowOf(e) - c.toDuration(0), earliest))
              else s.log + Added(c, e, s.queued, s.rtp, Max(NowOf(e) - c.toDuration(s.count), earliest))
  {
    StepAdds(c, s, e);
  }

  /**
   In every run a call cuts what is queued and its own samples into frames that carry its own
   capture times.  The timestamps go on from the log, unless more than three frames lie between:
   then what is queued is discarded, and they resume at the call's position.  The reference time
   is the call's, less what is queued, but later than that of the last frame sent.
   */
  lemma CallIsExact(c: Config, ss: seq<Encoder>, es: seq<Event>, i: nat)
    requires IsRun(c, ss, es) && i < |es|
    ensures IsBatch(c, ss[i].queued, ss[i].count) && Position(c, ss[i].log).Some?
    ensures var s, e := ss[i], es[i];
            var earliest := LastReference(c, s.log, NowOf(es[0])) + c.toDuration(1);
            ss[i + 1].log ==
              if i == 0 then Added(c, e, [], 0, NowOf(e))
              else if IsBehind(c, es, i, s.log, s.count)
              then s.log + [Skipped(s.queued, PositionAt(c, es, i))]
                   + Added(c, e, [], PositionAt(c, es, i), Max(NowOf(e) - c.toDuration(0), earliest))
              else s.log + Added(c, e, s.queued, Position(c, s.log).value, Max(NowOf(e) - c.toDuration(s.count), earliest))
  {
    var s, e := ss[i], es[i];
    AlwaysInv(c, ss, es, i);
    if i > 0 {
      StartsAtFirstCall(c, ss, es, i);
      LaterCallAdds(c, s, e);
    } else {
      FirstCallAdds(c, e);
    }
  }
}

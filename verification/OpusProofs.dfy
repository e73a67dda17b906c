/** No audio is lost or reordered but by a skip, and both timelines of the frames only go up. */
module OpusProofs {
  import opened Common
  import opened OpusSpec

  // ----- the log, read without the encoder's state -----

  ghost function Samples(log: seq<Entry>): seq<real> {
    if log == [] then [] else Samples(log[..|log| - 1]) + log[|log| - 1].samples
  }

  /**
   The RTP timestamp the next frame gets, by counting alone: every frame takes its length, and
   a skip resumes more than three frames after the discarded samples.  None if the log's
   own timestamps and lengths are not these.
   */
  ghost function Position(c: Config, log: seq<Entry>): Option<int> {
    if log == [] then Some(0) else Advance(c, Position(c, log[..|log| - 1]), log[|log| - 1])
  }

  ghost function Advance(c: Config, at: Option<int>, e: Entry): Option<int> {
    match e
    case Encoded(samples, rtp, _, _, _) =>
      if at == Some(rtp) && |samples| == Width(c.channels, c.samplesPerFrame) then Some(rtp + c.samplesPerFrame) else None
    case Skipped(samples, resume) =>
      if at.Some? && IsPartialFrame(c, samples, resume - at.value - MAX_FRAMES_BEFORE_SKIP * c.samplesPerFrame)
      then Some(resume) else None
  }

  /** Samples of fewer than a frame, and fewer than `limit`. */
  ghost predicate IsPartialFrame(c: Config, samples: seq<real>, limit: int) {
    exists n: nat :: n < c.samplesPerFrame && n < limit && IsBatch(c, samples, n)
  }

  /** The reference times of the frames strictly increase up to `last`. */
  ghost predicate ReferencesRise(log: seq<Entry>, last: Time) {
    && (forall a :: 0 <= a < |log| && log[a].Encoded? ==> log[a].reference <= last)
    && (forall a, b :: 0 <= a < b < |log| && log[a].Encoded? && log[b].Encoded? ==> log[a].reference < log[b].reference)
  }

  lemma AppendEntry(c: Config, log: seq<Entry>, e: Entry)
    ensures Samples(log + [e]) == Samples(log) + e.samples
    ensures Position(c, log + [e]) == Advance(c, Position(c, log), e)
  {
    assert (log + [e])[..|log|] == log;
  }

  // ----- the invariant -----

  ghost predicate Inv(c: Config, s: Encoder) {
    && s.count < c.samplesPerFrame
    && IsBatch(c, s.queued, s.count)
    && Position(c, s.log) == Some(s.rtp)
    && ReferencesRise(s.log, s.lastSent)
    && (s.startTime != IMMEDIATELY ==> s.lastSent < s.reference)
    && (s.startTime == IMMEDIATELY ==> s == Initial())
  }

  lemma ResolveKeepsInv(c: Config, s: Encoder, now: Time)
    requires ValidConfig(c) && Inv(c, s) && now != IMMEDIATELY
    ensures var s' := Resolve(c, s, now);
            && Inv(c, s')
            && s'.startTime != IMMEDIATELY
            && Samples(s'.log) + s'.queued == Samples(s.log) + s.queued
  {
    if s.startTime != IMMEDIATELY {
      var position := c.toTicks(now - s.startTime);
      if position - (s.rtp + s.count) > c.samplesPerFrame * MAX_FRAMES_BEFORE_SKIP {
        AppendEntry(c, s.log, Skipped(s.queued, position));
        assert IsPartialFrame(c, s.queued, position - s.rtp - MAX_FRAMES_BEFORE_SKIP * c.samplesPerFrame);
        assert IsBatch(c, [], 0);
      }
    }
  }

  lemma SendKeepsInv(c: Config, s: Encoder, begin: Time, end: Time)
    requires ValidConfig(c) && s.count == c.samplesPerFrame && IsBatch(c, s.queued, s.count)
    requires Position(c, s.log) == Some(s.rtp) && ReferencesRise(s.log, s.lastSent)
    requires s.startTime != IMMEDIATELY && s.lastSent < s.reference
    ensures var s' := SendFrame(c, s, begin, end);
            && Inv(c, s')
            && Samples(s'.log) == Samples(s.log) + s.queued
  {
    AppendEntry(c, s.log, Encoded(s.queued, s.rtp, s.reference, begin, end));
    assert IsBatch(c, [], 0);
  }

  /** The loop's first round, when the batch completes a frame. */
  lemma FirstFrame(c: Config, s: Encoder, xs: seq<real>, n: nat, begin: Time, end: Time)
    returns (s': Encoder, rest: seq<real>)
    requires ValidConfig(c) && IsBatch(c, xs, n)
    requires s.count < c.samplesPerFrame <= s.count + n
    ensures var k := c.samplesPerFrame - s.count;
            && Width(c.channels, k) <= |xs| && rest == xs[Width(c.channels, k)..] && IsBatch(c, rest, n - k)
            && s' == SendFrame(c, s.(queued := s.queued + xs[..Width(c.channels, k)], count := c.samplesPerFrame), begin, end)
            && Feed(c, s, xs, n, begin, end) == Feed(c, s', rest, n - k, begin, end)
  {
    var k := Fitting(c, s, n);
    TakeIsBatch(c, xs, n, k);
    s' := SendFrame(c, Fill(c, s, xs, n), begin, end);
    rest := xs[Width(c.channels, k)..];
  }

  /** A batch that does not complete the frame only joins the queue. */
  lemma NoFrame(c: Config, s: Encoder, xs: seq<real>, n: nat, begin: Time, end: Time)
    requires ValidConfig(c) && IsBatch(c, xs, n) && s.count + n < c.samplesPerFrame
    ensures Feed(c, s, xs, n, begin, end) == s.(queued := s.queued + xs, count := s.count + n)
  {
    if n == 0 {
      assert s.queued + xs == s.queued;
    } else {
      assert xs[..Width(c.channels, n)] == xs;
    }
  }

  lemma CutAt(done: seq<real>, queue: seq<real>, xs: seq<real>, w: nat)
    requires w <= |xs|
    ensures done + (queue + xs[..w]) + [] + xs[w..] == done + queue + xs
  {
    assert xs == xs[..w] + xs[w..];
  }

  lemma {:induction false} FeedKeepsInv(c: Config, s: Encoder, xs: seq<real>, n: nat, begin: Time, end: Time)
    requires ValidConfig(c) && Inv(c, s) && IsBatch(c, xs, n) && s.startTime != IMMEDIATELY
    ensures var s' := Feed(c, s, xs, n, begin, end);
            && Inv(c, s')
            && Samples(s'.log) + s'.queued == Samples(s.log) + s.queued + xs
    decreases n
  {
    if s.count + n < c.samplesPerFrame {
      NoFrame(c, s, xs, n, begin, end);
      WidthAdds(c.channels, s.count, n);
      assert Samples(s.log) + (s.queued + xs) == Samples(s.log) + s.queued + xs;
    } else {
      var s2, rest := FrameKeepsInv(c, s, xs, n, begin, end);
      FeedKeepsInv(c, s2, rest, n - (c.samplesPerFrame - s.count), begin, end);
    }
  }

  /** One frame is filled and sent. */
  lemma FrameKeepsInv(c: Config, s: Encoder, xs: seq<real>, n: nat, begin: Time, end: Time) returns (s': Encoder, rest: seq<real>)
    requires ValidConfig(c) && Inv(c, s) && IsBatch(c, xs, n) && s.startTime != IMMEDIATELY
    requires s.count + n >= c.samplesPerFrame
    ensures Inv(c, s') && s'.startTime != IMMEDIATELY && IsBatch(c, rest, n - (c.samplesPerFrame - s.count))
    ensures Feed(c, s, xs, n, begin, end) == Feed(c, s', rest, n - (c.samplesPerFrame - s.count), begin, end)
    ensures Samples(s'.log) + s'.queued + rest == Samples(s.log) + s.queued + xs
  {
    var k := c.samplesPerFrame - s.count;
    s', rest := FirstFrame(c, s, xs, n, begin, end);
    WidthAdds(c.channels, s.count, k);
    SendKeepsInv(c, s.(queued := s.queued + xs[..Width(c.channels, k)], count := c.samplesPerFrame), begin, end);
    CutAt(Samples(s.log), s.queued, xs, Width(c.channels, k));
  }

  // ----- whole runs -----

  ghost function Input(es: seq<Event>): seq<real> {
    if es == [] then [] else Input(es[..|es| - 1]) + es[|es| - 1].xs
  }

  lemma StepKeepsInv(c: Config, s: Encoder, e: Event)
    requires ValidConfig(c) && Inv(c, s) && Enabled(c, e)
    ensures var s' := Step(c, s, e);
            && Inv(c, s')
            && Samples(s'.log) + s'.queued == Samples(s.log) + s.queued + e.xs
  {
    var s1 := Resolve(c, s, e.reference - e.codecDelay);
    ResolveKeepsInv(c, s, e.reference - e.codecDelay);
    FeedKeepsInv(c, s1, e.xs, e.n, e.begin, e.end);
    assert Samples(s1.log) + s1.queued + e.xs == Samples(s.log) + s.queued + e.xs;
  }

  lemma InputSoFar(es: seq<Event>, i: nat)
    requires 0 < i <= |es|
    ensures Input(es[..i]) == Input(es[..i - 1]) + es[i - 1].xs
  {
    assert es[..i][..i - 1] == es[..i - 1];
  }

  lemma {:induction false} AlwaysInv(c: Config, ss: seq<Encoder>, es: seq<Event>, i: nat)
    requires IsRun(c, ss, es) && i < |ss|
    ensures Inv(c, ss[i])
    ensures Samples(ss[i].log) + ss[i].queued == Input(es[..i])
    decreases i
  {
    if i == 0 {
      assert IsBatch(c, [], 0);
    } else {
      AlwaysInv(c, ss, es, i - 1);
      StepKeepsInv(c, ss[i - 1], es[i - 1]);
      InputSoFar(es, i);
    }
  }

  // ----- what a log in order means -----

  /** A prefix of a log in order is in order, and every entry moves the position ahead. */
  lemma {:induction false} PrefixPosition(c: Config, log: seq<Entry>, k: nat)
    requires ValidConfig(c) && Position(c, log).Some? && k <= |log|
    ensures Position(c, log[..k]).Some?
    ensures Position(c, log[..k]).value <= Position(c, log).value
    ensures k < |log| ==> Position(c, log[..k]).value < Position(c, log).value
  {
    if k == |log| {
      assert log[..k] == log;
    } else {
      var init := log[..|log| - 1];
      PrefixPosition(c, init, k);
      assert init[..k] == log[..k];
    }
  }

  lemma EntryOnTimeline(c: Config, log: seq<Entry>, k: nat)
    requires ValidConfig(c) && Position(c, log).Some? && k < |log|
    ensures Position(c, log[..k]).Some? && Position(c, log[..k + 1]).Some?
    ensures Position(c, log[..k + 1]) == Advance(c, Position(c, log[..k]), log[k])
  {
    PrefixPosition(c, log, k);
    PrefixPosition(c, log, k + 1);
    assert log[..k + 1][..k] == log[..k];
  }

  /** Two frames' timestamps differ by a frame's length or more, and by just that if and only if nothing came between. */
  lemma FramesOnTimeline(c: Config, log: seq<Entry>, a: nat, b: nat)
    requires ValidConfig(c) && Position(c, log).Some?
    requires a < b < |log| && log[a].Encoded? && log[b].Encoded?
    ensures log[b].rtp - log[a].rtp >= c.samplesPerFrame
    ensures log[b].rtp - log[a].rtp == c.samplesPerFrame <==> b == a + 1
  {
    EntryOnTimeline(c, log, a);
    EntryOnTimeline(c, log, b);
    PrefixPosition(c, log[..b], a + 1);
    assert log[..b][..a + 1] == log[..a + 1];
  }

  lemma PartialIsLess(c: Config, samples: seq<real>)
    requires c.channels > 0
    ensures forall limit :: IsPartialFrame(c, samples, limit) ==> |samples| < Width(c.channels, c.samplesPerFrame)
  {
    forall limit | IsPartialFrame(c, samples, limit)
      ensures |samples| < Width(c.channels, c.samplesPerFrame)
    {
      var n: nat :| n < c.samplesPerFrame && n < limit && IsBatch(c, samples, n);
      LessInBatch(c.channels, n, c.samplesPerFrame);
    }
  }

  /** A frame is full, and a skip discards less than one. */
  lemma EntriesHaveTheirSize(c: Config, log: seq<Entry>, k: nat)
    requires ValidConfig(c) && Position(c, log).Some? && k < |log|
    ensures log[k].Encoded? ==> |log[k].samples| == Width(c.channels, c.samplesPerFrame)
    ensures log[k].Skipped? ==> |log[k].samples| < Width(c.channels, c.samplesPerFrame)
  {
    EntryOnTimeline(c, log, k);
    if log[k].Skipped? {
      PartialIsLess(c, log[k].samples);
    }
  }

  lemma LessInBatch(channels: nat, n: nat, m: nat)
    requires channels > 0 && n < m
    ensures Width(channels, n) < Width(channels, m)
  {
    WidthAdds(channels, n, m - n);
  }

  // ----- the theorems -----

  /** All input is, in its order, in full frames, in what skips discarded, and in the queue. */
  lemma AudioIsConserved(c: Config, ss: seq<Encoder>, es: seq<Event>, i: nat)
    requires IsRun(c, ss, es) && i < |ss|
    ensures Samples(ss[i].log) + ss[i].queued == Input(es[..i])
    ensures |ss[i].queued| < Width(c.channels, c.samplesPerFrame)
    ensures forall k :: 0 <= k < |ss[i].log| ==>
              if ss[i].log[k].Encoded? then |ss[i].log[k].samples| == Width(c.channels, c.samplesPerFrame)
              else |ss[i].log[k].samples| < Width(c.channels, c.samplesPerFrame)
  {
    AlwaysInv(c, ss, es, i);
    LessInBatch(c.channels, ss[i].count, c.samplesPerFrame);
    forall k | 0 <= k < |ss[i].log|
      ensures if ss[i].log[k].Encoded? then |ss[i].log[k].samples| == Width(c.channels, c.samplesPerFrame)
              else |ss[i].log[k].samples| < Width(c.channels, c.samplesPerFrame)
    {
      EntriesHaveTheirSize(c, ss[i].log, k);
    }
  }

  /** In every run both timelines rise from each frame to each later one. */
  lemma TimelinesRise(c: Config, ss: seq<Encoder>, es: seq<Event>, i: nat, a: nat, b: nat)
    requires IsRun(c, ss, es) && i < |ss|
    requires a < b < |ss[i].log| && ss[i].log[a].Encoded? && ss[i].log[b].Encoded?
    ensures ss[i].log[b].rtp - ss[i].log[a].rtp >= c.samplesPerFrame
    ensures ss[i].log[b].rtp - ss[i].log[a].rtp == c.samplesPerFrame <==> b == a + 1
    ensures ss[i].log[a].reference < ss[i].log[b].reference
  {
    AlwaysInv(c, ss, es, i);
    FramesOnTimeline(c, ss[i].log, a, b);
  }

  // ----- the loop against plain chunking -----

  /** Cuts a stretch of audio into full frames, with evenly spaced timestamps. */
  ghost function Chunks(c: Config, xs: seq<real>, rtp: int, reference: Time, begin: Time, end: Time): seq<Entry>
    requires ValidConfig(c)
    decreases |xs|
  {
    var size := Width(c.channels, c.samplesPerFrame);
    if |xs| < size then []
    else
      FrameIsNotEmpty(c);
      [Encoded(xs[..size], rtp, reference, begin, end)]
      + Chunks(c, xs[size..], rtp + c.samplesPerFrame, reference + c.frameDuration, begin, end)
  }

  lemma FrameIsNotEmpty(c: Config)
    requires ValidConfig(c)
    ensures Width(c.channels, c.samplesPerFrame) > 0
  {
    LessInBatch(c.channels, 0, c.samplesPerFrame);
  }

  lemma CutFirst(queue: seq<real>, xs: seq<real>, w: nat)
    requires w <= |xs|
    ensures (queue + xs)[..|queue| + w] == queue + xs[..w]
    ensures (queue + xs)[|queue| + w..] == xs[w..] == [] + xs[w..]
  {
  }

  lemma FirstChunk(c: Config, queue: seq<real>, xs: seq<real>, w: nat, rtp: int, reference: Time, begin: Time, end: Time)
    requires ValidConfig(c) && w <= |xs| && |queue| + w == Width(c.channels, c.samplesPerFrame)
    ensures Chunks(c, queue + xs, rtp, reference, begin, end)
         == [Encoded(queue + xs[..w], rtp, reference, begin, end)]
            + Chunks(c, xs[w..], rtp + c.samplesPerFrame, reference + c.frameDuration, begin, end)
  {
    CutFirst(queue, xs, w);
  }

  /** A call sends just the full frames of what was queued and the batch together. */
  lemma {:induction false} FeedSendsChunks(c: Config, s: Encoder, xs: seq<real>, n: nat, begin: Time, end: Time)
    requires ValidConfig(c) && IsBatch(c, xs, n) && s.count < c.samplesPerFrame && IsBatch(c, s.queued, s.count)
    ensures Feed(c, s, xs, n, begin, end).log == s.log + Chunks(c, s.queued + xs, s.rtp, s.reference, begin, end)
    decreases n
  {
    if s.count + n < c.samplesPerFrame {
      NoFrame(c, s, xs, n, begin, end);
      WidthAdds(c.channels, s.count, n);
      LessInBatch(c.channels, s.count + n, c.samplesPerFrame);
    } else {
      FrameThenChunks(c, s, xs, n, begin, end);
    }
  }

  lemma {:induction false} FrameThenChunks(c: Config, s: Encoder, xs: seq<real>, n: nat, begin: Time, end: Time)
    requires ValidConfig(c) && IsBatch(c, xs, n) && IsBatch(c, s.queued, s.count)
    requires s.count < c.samplesPerFrame <= s.count + n
    ensures Feed(c, s, xs, n, begin, end).log == s.log + Chunks(c, s.queued + xs, s.rtp, s.reference, begin, end)
    decreases n, 0
  {
    var k := c.samplesPerFrame - s.count;
    var s2, rest := FirstFrame(c, s, xs, n, begin, end);
    WidthAdds(c.channels, s.count, k);
    FirstChunk(c, s.queued, xs, Width(c.channels, k), s.rtp, s.reference, begin, end);
    FeedSendsChunks(c, s2, rest, n - k, begin, end);
    assert s2.queued + rest == rest;
    JoinLogs(s.log, s2.log[|s.log|], Chunks(c, rest, s2.rtp, s2.reference, begin, end));
  }

  lemma JoinLogs(log: seq<Entry>, e: Entry, rest: seq<Entry>)
    ensures log + [e] + rest == log + ([e] + rest)
  {
  }

  lemma CutJoined(queue: seq<real>, xs: seq<real>, ys: seq<real>, w: nat)
    requires w <= |ys|
    ensures queue + (xs + ys)[..|xs| + w] == queue + xs + ys[..w]
    ensures (xs + ys)[|xs| + w..] == ys[w..]
  {
  }

  lemma QueueThenMore(c: Config, s: Encoder, xs: seq<real>, n: nat, ys: seq<real>, m: nat, begin: Time, end: Time)
    requires ValidConfig(c) && IsBatch(c, xs, n) && IsBatch(c, ys, m) && IsBatch(c, xs + ys, n + m)
    requires s.count + n < c.samplesPerFrame
    ensures var s1 := s.(queued := s.queued + xs, count := s.count + n);
            Feed(c, s1, ys, m, begin, end) == Feed(c, s, xs + ys, n + m, begin, end)
  {
    var s1 := s.(queued := s.queued + xs, count := s.count + n);
    if s.count + n + m < c.samplesPerFrame {
      NoFrame(c, s1, ys, m, begin, end);
      NoFrame(c, s, xs + ys, n + m, begin, end);
      assert s1.queued + ys == s.queued + (xs + ys);
    } else {
      var k1 := c.samplesPerFrame - s1.count;
      var s2, rest := FirstFrame(c, s1, ys, m, begin, end);
      var s2', rest' := FirstFrame(c, s, xs + ys, n + m, begin, end);
      WidthAdds(c.channels, n, k1);
      CutJoined(s.queued, xs, ys, Width(c.channels, k1));
    }
  }

  lemma CutBefore(xs: seq<real>, ys: seq<real>, w: nat)
    requires w <= |xs|
    ensures (xs + ys)[..w] == xs[..w]
    ensures (xs + ys)[w..] == xs[w..] + ys
  {
  }

  /** It does not matter how the audio of one moment is cut into batches. */
  lemma {:induction false} BatchesJoin(c: Config, s: Encoder, xs: seq<real>, n: nat, ys: seq<real>, m: nat,
                                       begin: Time, end: Time)
    requires ValidConfig(c) && IsBatch(c, xs, n) && IsBatch(c, ys, m) && s.count < c.samplesPerFrame
    ensures IsBatch(c, xs + ys, n + m)
    ensures Feed(c, s, xs, n, begin, end).count < c.samplesPerFrame
    ensures Feed(c, Feed(c, s, xs, n, begin, end), ys, m, begin, end) == Feed(c, s, xs + ys, n + m, begin, end)
    decreases n
  {
    WidthAdds(c.channels, n, m);
    if s.count + n < c.samplesPerFrame {
      NoFrame(c, s, xs, n, begin, end);
      QueueThenMore(c, s, xs, n, ys, m, begin, end);
    } else {
      var k := c.samplesPerFrame - s.count;
      var s2, rest := FirstFrame(c, s, xs, n, begin, end);
      var s2', rest' := FirstFrame(c, s, xs + ys, n + m, begin, end);
      BatchesJoin(c, s2, rest, n - k, ys, m, begin, end);
      CutBefore(xs, ys, Width(c.channels, k));
    }
  }

  // ----- the frames of one call in a run -----

  lemma {:induction false} ChunkAt(c: Config, xs: seq<real>, rtp: int, reference: Time, begin: Time, end: Time, m: nat)
    requires ValidConfig(c) && m < |Chunks(c, xs, rtp, reference, begin, end)|
    ensures var frame := Chunks(c, xs, rtp, reference, begin, end)[m];
            frame.Encoded? && frame.rtp == rtp + m * c.samplesPerFrame && frame.reference == reference + m * c.frameDuration
    decreases m
  {
    FrameIsNotEmpty(c);
    if m > 0 {
      var size := Width(c.channels, c.samplesPerFrame);
      ChunkAt(c, xs[size..], rtp + c.samplesPerFrame, reference + c.frameDuration, begin, end, m - 1);
      assert m * c.samplesPerFrame == (m - 1) * c.samplesPerFrame + c.samplesPerFrame;
      assert m * c.frameDuration == (m - 1) * c.frameDuration + c.frameDuration;
    }
  }

  ghost function NowOf(e: Event): Time {
    e.reference - e.codecDelay
  }

  /** How many frames event `i` has sent before entry `k` of the log. */
  ghost function FrameNumber(c: Config, ss: seq<Encoder>, es: seq<Event>, i: nat, k: nat): int
    requires i < |es| < |ss|
  {
    k - |Resolve(c, ss[i], NowOf(es[i])).log|
  }

  lemma StepSendsChunks(c: Config, s: Encoder, e: Event)
    requires ValidConfig(c) && Enabled(c, e) && Inv(c, s)
    ensures var r := Resolve(c, s, NowOf(e));
            Step(c, s, e).log == r.log + Chunks(c, r.queued + e.xs, r.rtp, r.reference, e.begin, e.end)
  {
    ResolveKeepsInv(c, s, NowOf(e));
    FeedSendsChunks(c, Resolve(c, s, NowOf(e)), e.xs, e.n, e.begin, e.end);
  }

  /** The frames that one call sends, numbered from where it starts on both timelines. */
  lemma FramesOfCall(c: Config, ss: seq<Encoder>, es: seq<Event>, i: nat, k: nat)
    requires IsRun(c, ss, es) && i < |es| && |ss[i].log| <= k < |ss[i + 1].log| && ss[i + 1].log[k].Encoded?
    ensures var r, m := Resolve(c, ss[i], NowOf(es[i])), FrameNumber(c, ss, es, i, k);
            && m >= 0
            && ss[i + 1].log[k].rtp == r.rtp + m * c.samplesPerFrame
            && ss[i + 1].log[k].reference == r.reference + m * c.frameDuration
  {
    var e := es[i];
    var r := Resolve(c, ss[i], NowOf(e));
    AlwaysInv(c, ss, es, i);
    StepSendsChunks(c, ss[i], e);
    if k >= |r.log| {
      ChunkAt(c, r.queued + e.xs, r.rtp, r.reference, e.begin, e.end, k - |r.log|);
    }
  }

  /** The call's position on the RTP timeline, which the first call starts. */
  ghost function PositionOf(c: Config, s: Encoder, e: Event): int {
    if s.startTime == IMMEDIATELY then 0 else c.toTicks(NowOf(e) - s.startTime)
  }

  /** The reference time of the first sample of frame `m` of a call, counting from what was queued before. */
  ghost function SampledAt(c: Config, s: Encoder, e: Event, m: int): Time {
    var queued := Resolve(c, s, NowOf(e)).count;
    NowOf(e) - (if s.startTime == IMMEDIATELY then 0 else c.toDuration(queued)) + m * c.frameDuration
  }

  /**
   In every run, the frames of a call keep up: each lies less than four frames behind the
   call's own position on the RTP timeline, and its reference time is not before that of its
   first sample.  It is exactly that if and only if the call is the first or the last frame
   sent lies far enough back.
   */
  lemma CallKeepsUp(c: Config, ss: seq<Encoder>, es: seq<Event>, i: nat, k: nat)
    requires IsRun(c, ss, es) && i < |es| && |ss[i].log| <= k < |ss[i + 1].log| && ss[i + 1].log[k].Encoded?
    ensures PositionOf(c, ss[i], es[i]) - ss[i + 1].log[k].rtp < (MAX_FRAMES_BEFORE_SKIP + 1) * c.samplesPerFrame
    ensures var sampled := SampledAt(c, ss[i], es[i], FrameNumber(c, ss, es, i, k));
            var queued := Resolve(c, ss[i], NowOf(es[i])).count;
            && sampled <= ss[i + 1].log[k].reference
            && (sampled == ss[i + 1].log[k].reference <==>
                  || ss[i].startTime == IMMEDIATELY
                  || ss[i].lastSent + c.toDuration(1) + c.toDuration(queued) <= NowOf(es[i]))
  {
    FramesOfCall(c, ss, es, i, k);
    AlwaysInv(c, ss, es, i);
    ResolveKeepsUp(c, ss[i], es[i]);
    Multiple(FrameNumber(c, ss, es, i, k), c.samplesPerFrame);
  }

  /** Where a call starts on both timelines. */
  lemma ResolveKeepsUp(c: Config, s: Encoder, e: Event)
    requires ValidConfig(c) && Inv(c, s)
    ensures var r, sampled := Resolve(c, s, NowOf(e)), SampledAt(c, s, e, 0);
            && PositionOf(c, s, e) - r.rtp < (MAX_FRAMES_BEFORE_SKIP + 1) * c.samplesPerFrame
            && sampled <= r.reference
            && (sampled == r.reference <==>
                  || s.startTime == IMMEDIATELY
                  || s.lastSent + c.toDuration(1) + c.toDuration(r.count) <= NowOf(e))
  {
  }

  lemma Multiple(m: nat, n: nat)
    ensures m * n >= 0
  {
  }
}

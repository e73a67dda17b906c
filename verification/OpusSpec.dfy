/**
 cast/standalone_sender/streaming_opus_encoder.cc: batches of interleaved audio samples are cut
 into frames of a fixed size, each with an RTP timestamp and a reference time.  The codec is
 an oracle; the conversions between clock durations and RTP ticks are arbitrary functions, but
 for the assumption that one tick takes some time.  `log` records the frames handed to
 the Sender and the samples discarded when the encoder has fallen behind.
 */
module OpusSpec {
  import opened Common

  const MAX_FRAMES_BEFORE_SKIP := 3

  datatype Config = Config(
    channels: nat,
    samplesPerFrame: nat,        // samples_per_cast_frame_
    frameDuration: int,          // approximate_cast_frame_duration_
    toDuration: int -> int,      // RTP ticks to a clock duration
    toTicks: int -> int          // time since the start to RTP ticks
  )

  ghost predicate ValidConfig(c: Config) {
    c.channels > 0 && c.samplesPerFrame > 0 && c.frameDuration > 0 && c.toDuration(1) > 0
  }

  datatype Entry =
    | Encoded(samples: seq<real>, rtp: int, reference: Time, begin: Time, end: Time)
    | Skipped(samples: seq<real>, resume: int)

  datatype Encoder = Encoder(
    queued: seq<real>,    // the used part of input_
    count: nat,           // num_samples_queued_
    startTime: Time,      // IMMEDIATELY before the first call
    rtp: int,             // frame_.rtp_timestamp
    reference: Time,      // frame_.reference_time
    lastSent: Time,       // last_sent_frame_reference_time_
    log: seq<Entry>
  )

  function Initial(): Encoder {
    Encoder([], 0, IMMEDIATELY, 0, 0, 0, [])
  }

  /** ResolveTimestampsAndMaybeSkip, after the codec delay has been taken off. */
  function Resolve(c: Config, s: Encoder, now: Time): Encoder {
    if s.startTime == IMMEDIATELY then
      s.(rtp := 0, reference := now, startTime := now, lastSent := now - c.frameDuration)
    else
      var position := c.toTicks(now - s.startTime);
      var s1 := if position - (s.rtp + s.count) > c.samplesPerFrame * MAX_FRAMES_BEFORE_SKIP
                then s.(queued := [], count := 0, rtp := position, log := s.log + [Skipped(s.queued, position)])
                else s;
      s1.(reference := Max(now - c.toDuration(s1.count), s1.lastSent + c.toDuration(1)))
  }

  /** One full frame is encoded and sent. */
  function SendFrame(c: Config, s: Encoder, begin: Time, end: Time): Encoder {
    s.(queued := [], count := 0, log := s.log + [Encoded(s.queued, s.rtp, s.reference, begin, end)],
       lastSent := s.reference, rtp := s.rtp + c.samplesPerFrame, reference := s.reference + c.frameDuration)
  }

  /** The number of values that `n` samples of that many channels take. */
  ghost function Width(channels: nat, n: nat): nat {
    if n == 0 then 0 else Width(channels, n - 1) + channels
  }

  lemma {:induction false} WidthIsProduct(channels: nat, n: nat)
    ensures Width(channels, n) == channels * n
  {
    if n > 0 {
      WidthIsProduct(channels, n - 1);
    }
  }

  lemma {:induction false} WidthAdds(channels: nat, n: nat, m: nat)
    ensures Width(channels, n + m) == Width(channels, n) + Width(channels, m)
  {
    if m > 0 {
      WidthAdds(channels, n, m - 1);
    }
  }

  /** The values, one channel after the other for each sample, of a batch of `n`. */
  ghost predicate IsBatch(c: Config, xs: seq<real>, n: nat) {
    |xs| == Width(c.channels, n)
  }

  /** How many of `n` samples fit into the frame being filled. */
  function Fitting(c: Config, s: Encoder, n: nat): nat
    requires s.count <= c.samplesPerFrame
  {
    Min(n, c.samplesPerFrame - s.count)
  }

  lemma TakeIsBatch(c: Config, xs: seq<real>, n: nat, k: nat)
    requires IsBatch(c, xs, n) && k <= n
    ensures Width(c.channels, k) <= |xs| && IsBatch(c, xs[Width(c.channels, k)..], n - k)
  {
    WidthAdds(c.channels, k, n - k);
  }

  ghost function Fill(c: Config, s: Encoder, xs: seq<real>, n: nat): Encoder
    requires IsBatch(c, xs, n) && s.count <= c.samplesPerFrame
  {
    var k := Fitting(c, s, n);
    TakeIsBatch(c, xs, n, k);
    s.(queued := s.queued + xs[..Width(c.channels, k)], count := s.count + k)
  }

  /** The loop of EncodeAndSend. */
  ghost function Feed(c: Config, s: Encoder, xs: seq<real>, n: nat, begin: Time, end: Time): Encoder
    requires ValidConfig(c) && IsBatch(c, xs, n) && s.count < c.samplesPerFrame
    decreases n
  {
    if n == 0 then s
    else
      var k := Fitting(c, s, n);
      var s1 := Fill(c, s, xs, n);
      if s1.count < c.samplesPerFrame then s1
      else
        TakeIsBatch(c, xs, n, k);
        Feed(c, SendFrame(c, s1, begin, end), xs[Width(c.channels, k)..], n - k, begin, end)
  }

  datatype Event = EncodeAndSend(xs: seq<real>, n: nat, begin: Time, end: Time, reference: Time, codecDelay: int)

  /** What EncodeAndSend checks. */
  ghost predicate Accepts(c: Config, e: Event) {
    e.n > 0 && IsBatch(c, e.xs, e.n)
  }

  ghost function Step(c: Config, s: Encoder, e: Event): Encoder
    requires ValidConfig(c) && Accepts(c, e) && s.count < c.samplesPerFrame
  {
    Feed(c, Resolve(c, s, e.reference - e.codecDelay), e.xs, e.n, e.begin, e.end)
  }

  /** In a run no batch is from the clock's very minimum, which stands for "not started". */
  ghost predicate Enabled(c: Config, e: Event) {
    Accepts(c, e) && e.reference - e.codecDelay != IMMEDIATELY
  }

  ghost predicate IsRun(c: Config, ss: seq<Encoder>, es: seq<Event>) {
    && ValidConfig(c)
    && |ss| == |es| + 1
    && ss[0] == Initial()
    && forall i :: 0 <= i < |es| ==>
         && Enabled(c, es[i])
         && ss[i].count < c.samplesPerFrame
         && ss[i + 1] == Step(c, ss[i], es[i])
  }
}

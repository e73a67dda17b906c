/** The audio encoder with its input buffer filled in place. */
module OpusImpl {
  import opened Common
  import Spec = OpusSpec

  class StreamingOpusEncoder {
    const config: Spec.Config
    const input: array<real>
    var numSamplesQueued: nat
    var codecDelay: int
    var startTime: Time
    var rtp: int
    var reference: Time
    var lastSent: Time
    var log: seq<Spec.Entry>

    ghost predicate Valid()
      reads this
    {
      && Spec.ValidConfig(config)
      && input.Length == Spec.Width(config.channels, config.samplesPerFrame)
      && numSamplesQueued <= config.samplesPerFrame
      && Spec.Width(config.channels, numSamplesQueued) <= input.Length
    }

    ghost function State(): Spec.Encoder
      requires Valid()
      reads this, input
    {
      Spec.Encoder(input[..Spec.Width(config.channels, numSamplesQueued)], numSamplesQueued,
                   startTime, rtp, reference, lastSent, log)
    }

    constructor (config: Spec.Config, codecDelay: int)
      requires Spec.ValidConfig(config)
      ensures Valid() && this.config == config && this.codecDelay == codecDelay && fresh(input)
      ensures State() == Spec.Initial()
    {
      this.config := config;
      this.codecDelay := codecDelay;
      Spec.WidthIsProduct(config.channels, config.samplesPerFrame);
      input := new real[config.channels * config.samplesPerFrame];
      numSamplesQueued := 0;
      startTime := IMMEDIATELY;
      rtp, reference, lastSent := 0, 0, 0;
      log := [];
    }

    method EncodeAndSend(xs: seq<real>, numSamples: nat, begin: Time, end: Time, referenceTime: Time)
      requires Valid() && numSamplesQueued < config.samplesPerFrame
      requires Spec.Accepts(config, Spec.EncodeAndSend(xs, numSamples, begin, end, referenceTime, codecDelay))
      modifies this, input
      ensures Valid() && numSamplesQueued < config.samplesPerFrame && codecDelay == old(codecDelay)
      ensures State() == Spec.Step(config, old(State()),
                           Spec.EncodeAndSend(xs, numSamples, begin, end, referenceTime, old(codecDelay)))
    {
      ResolveTimestampsAndMaybeSkip(referenceTime);
      EncodeBatch(xs, numSamples, begin, end);
    }

    /** The loop of EncodeAndSend. */
    method EncodeBatch(xs: seq<real>, numSamples: nat, begin: Time, end: Time)
      requires Valid() && numSamplesQueued < config.samplesPerFrame && Spec.IsBatch(config, xs, numSamples)
      modifies this, input
      ensures Valid() && numSamplesQueued < config.samplesPerFrame && codecDelay == old(codecDelay)
      ensures State() == Spec.Feed(config, old(State()), xs, numSamples, begin, end)
    {
      var from, n := 0, numSamples;
      assert xs[0..] == xs;
      while n > 0
        invariant 0 <= from <= |xs|
        invariant Valid() && numSamplesQueued < config.samplesPerFrame && codecDelay == old(codecDelay)
        invariant Spec.IsBatch(config, xs[from..], n)
        invariant Spec.Feed(config, State(), xs[from..], n, begin, end)
               == Spec.Feed(config, old(State()), xs, numSamples, begin, end)
      {
        ghost var rest := xs[from..];
        var copied := FillInputBuffer(xs, from, n);
        if numSamplesQueued < config.samplesPerFrame {
          return;
        }
        Spec.TakeIsBatch(config, rest, n, copied);
        Spec.WidthIsProduct(config.channels, copied);
        NextSlice(xs, from, config.channels * copied);
        n := n - copied;
        from := from + config.channels * copied;
        SendFrame(begin, end);
      }
    }

    static lemma NextSlice(xs: seq<real>, from: nat, w: nat)
      requires from + w <= |xs|
      ensures xs[from..][w..] == xs[from + w..]
    {
    }

    method SendFrame(begin: Time, end: Time)
      requires Valid() && numSamplesQueued == config.samplesPerFrame
      modifies this
      ensures Valid() && numSamplesQueued == 0 && codecDelay == old(codecDelay)
      ensures State() == Spec.SendFrame(config, old(State()), begin, end)
    {
      var samples := input[..];
      assert samples == State().queued;
      numSamplesQueued := 0;
      lastSent := reference;
      log := log + [Spec.Encoded(samples, rtp, reference, begin, end)];
      rtp := rtp + config.samplesPerFrame;
      reference := reference + config.frameDuration;
    }

    method ResolveTimestampsAndMaybeSkip(referenceTime: Time)
      requires Valid() && numSamplesQueued < config.samplesPerFrame
      modifies this
      ensures Valid() && numSamplesQueued < config.samplesPerFrame && codecDelay == old(codecDelay)
      ensures State() == Spec.Resolve(config, old(State()), referenceTime - old(codecDelay))
    {
      var now := referenceTime - codecDelay;
      if startTime == IMMEDIATELY {
        rtp := 0;
        startTime := now;
        reference := now;
        lastSent := now - config.frameDuration;
        return;
      }
      var current := rtp + numSamplesQueued;
      var position := config.toTicks(now - startTime);
      if position - current > config.samplesPerFrame * Spec.MAX_FRAMES_BEFORE_SKIP {
        Spec.WidthIsProduct(config.channels, numSamplesQueued);
        log := log + [Spec.Skipped(input[..config.channels * numSamplesQueued], position)];
        numSamplesQueued := 0;
        rtp := position;
      }
      now := now - config.toDuration(numSamplesQueued);
      var lowerBound := lastSent + config.toDuration(1);
      if now < lowerBound {
        now := lowerBound;
      }
      reference := now;
    }

    method FillInputBuffer(xs: seq<real>, from: nat, n: nat) returns (copied: nat)
      requires Valid() && numSamplesQueued < config.samplesPerFrame && from <= |xs|
      requires Spec.IsBatch(config, xs[from..], n)
      modifies `numSamplesQueued, input
      ensures Valid() && copied == Spec.Fitting(config, old(State()), n)
      ensures State() == Spec.Fill(config, old(State()), xs[from..], n)
    {
      var needed := config.samplesPerFrame - numSamplesQueued;
      copied := Min(n, needed);
      ghost var rest := xs[from..];
      Spec.TakeIsBatch(config, rest, n, copied);
      Spec.WidthAdds(config.channels, numSamplesQueued, copied);
      Spec.WidthAdds(config.channels, numSamplesQueued, needed);
      Spec.WidthAdds(config.channels, copied, needed - copied);
      Spec.WidthIsProduct(config.channels, numSamplesQueued);
      Spec.WidthIsProduct(config.channels, copied);
      var at, width := config.channels * numSamplesQueued, config.channels * copied;
      Copy(xs[from..from + width], input, at);
      assert xs[from..from + width] == rest[..width];
      numSamplesQueued := numSamplesQueued + copied;
    }

    static method Copy(xs: seq<real>, a: array<real>, at: nat)
      requires at + |xs| <= a.Length
      modifies a
      ensures a[..at + |xs|] == old(a[..at]) + xs
      ensures a[at + |xs|..] == old(a[at + |xs|..])
    {
      var i := 0;
      while i < |xs|
        invariant 0 <= i <= |xs|
        invariant a[..at] == old(a[..at])
        invariant a[at..at + i] == xs[..i]
        invariant a[at + i..] == old(a[at + i..])
      {
        a[at + i] := xs[i];
        i := i + 1;
      }
      assert a[..at + |xs|] == a[..at] + a[at..at + |xs|];
    }
  }
}

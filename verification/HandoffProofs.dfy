/** Order, wake-ups, key frames and shutdown of the encoder hand-off, over every interleaving. */
module HandoffProofs {
  import opened Common
  import opened HandoffSpec

  ghost function Units(taken: seq<Taken>): (u: seq<WorkUnit>)
    ensures |u| == |taken|
  {
    seq(|taken|, i requires 0 <= i < |taken| => taken[i].unit)
  }

  ghost function InEncoder(w: Worker): seq<Taken> {
    if w.Encoding? then [w.job] else []
  }

  /** Nothing is lost, duplicated or reordered anywhere between acceptance and sending. */
  ghost predicate Conserved(s: Encoder) {
    && s.accepted == Units(s.taken) + s.queue
    && s.taken == s.sent + s.posted + InEncoder(s.worker)
  }

  ghost predicate RtpIncreases(s: Encoder) {
    && (forall i, j :: 0 <= i < j < |s.accepted| ==> s.accepted[i].rtp < s.accepted[j].rtp)
    && (s.accepted != [] ==> s.accepted[|s.accepted| - 1].rtp == s.lastRtp && s.startTime != IMMEDIATELY)
  }

  /** The encode thread sleeps only while there is nothing to do for it. */
  ghost predicate NoLostWakeUp(s: Encoder) {
    s.worker == Waiting(false) ==> s.queue == [] && s.bitrate > 0
  }

  ghost predicate BitrateUsable(s: Encoder) {
    s.bitrate == 0 || s.bitrate >= BYTES_PER_KILOBYTE
  }

  ghost predicate Inv(s: Encoder) {
    && Conserved(s)
    && RtpIncreases(s)
    && NoLostWakeUp(s)
    && BitrateUsable(s)
    && (s.worker.Exited? ==> s.bitrate == 0)
  }

  lemma UnitsAppend(taken: seq<Taken>, t: Taken)
    ensures Units(taken + [t]) == Units(taken) + [t.unit]
  {
  }

  lemma DequeueKeepsConserved(s: Encoder)
    requires Conserved(s) && s.queue != [] && !s.worker.Encoding?
    ensures Conserved(Dequeue(s))
  {
    var job := Taken(s.queue[0], s.needsKey, s.bitrate);
    UnitsAppend(s.taken, job);
    assert Units(s.taken) + s.queue == Units(s.taken) + [s.queue[0]] + s.queue[1..];
  }

  lemma StepKeepsConserved(s: Encoder, e: Event)
    requires Conserved(s) && Enabled(s, e)
    ensures Conserved(Step(s, e))
  {
    match e
    case Send(_) =>
      assert s.sent + s.posted == s.sent + [s.posted[0]] + s.posted[1..];
    case Enter =>
      if s.bitrate > 0 && s.queue != [] {
        DequeueKeepsConserved(s);
      }
    case Wake =>
      if s.queue != [] {
        DequeueKeepsConserved(s);
      }
    case Finish =>
      assert s.sent + s.posted + [s.worker.job] == s.sent + (s.posted + [s.worker.job]) + [];
    case TryEncode(_, _, _, _, _) =>
    case SetBitrate(_) =>
    case Quit =>
  }

  lemma StepKeepsRtp(s: Encoder, e: Event)
    requires RtpIncreases(s) && Enabled(s, e)
    ensures RtpIncreases(Step(s, e))
  {
    if !Accepts(s, e) {
      assert Step(s, e).accepted == s.accepted && Step(s, e).lastRtp == s.lastRtp;
    }
  }

  lemma StepKeepsWorker(s: Encoder, e: Event)
    requires NoLostWakeUp(s) && BitrateUsable(s) && (s.worker.Exited? ==> s.bitrate == 0) && Enabled(s, e)
    ensures NoLostWakeUp(Step(s, e)) && BitrateUsable(Step(s, e))
    ensures Step(s, e).worker.Exited? ==> Step(s, e).bitrate == 0
  {
  }

  lemma StepKeepsInv(s: Encoder, e: Event)
    requires Inv(s) && Enabled(s, e)
    ensures Inv(Step(s, e))
  {
    StepKeepsConserved(s, e);
    StepKeepsRtp(s, e);
    StepKeepsWorker(s, e);
  }

  lemma {:induction false} AlwaysInv(ss: seq<Encoder>, es: seq<Event>, i: nat)
    requires IsRun(ss, es) && i < |ss|
    ensures Inv(ss[i])
  {
    if i > 0 {
      AlwaysInv(ss, es, i - 1);
      StepKeepsInv(ss[i - 1], es[i - 1]);
    }
  }

  // ----- the inputs -----

  /** Some frame has been offered. */
  ghost predicate Offered(es: seq<Event>) {
    exists k :: 0 <= k < |es| && es[k].TryEncode?
  }

  ghost function LastTimestamp(units: seq<WorkUnit>): int {
    if units == [] then 0 else units[|units| - 1].rtp
  }

  /**
   The frames that the client's calls put into the stream, told from the calls alone.  The first
   call starts the RTP timeline; a later one is turned down if its time is not after that of the
   last frame; and any if there is too much in flight.
   */
  ghost function Given(es: seq<Event>): seq<WorkUnit> {
    if es == [] then []
    else
      var earlier, e := es[..|es| - 1], es[|es| - 1];
      var before := Given(earlier);
      if !e.TryEncode? || !e.fits then before
      else if !Offered(earlier) then before + [WorkUnit(0, e.frame)]
      else if LastTimestamp(before) < e.ticks then before + [WorkUnit(e.ticks, e.frame)]
      else before
  }

  lemma OfferedSoFar(es: seq<Event>, i: nat)
    requires 0 < i <= |es|
    ensures es[..i][..i - 1] == es[..i - 1] && es[..i][i - 1] == es[i - 1]
    ensures Offered(es[..i]) <==> Offered(es[..i - 1]) || es[i - 1].TryEncode?
  {
    assert es[..i] == es[..i - 1] + [es[i - 1]];
    if es[i - 1].TryEncode? {
      assert es[..i][i - 1].TryEncode?;
    }
    var earlier := es[..i - 1];
    if k :| 0 <= k < |earlier| && earlier[k].TryEncode? {
      assert es[..i][k].TryEncode?;
    }
  }

  /** In every run the frames accepted are those given, and the timeline starts with the first call. */
  lemma {:induction false} AcceptsWhatIsGiven(ss: seq<Encoder>, es: seq<Event>, i: nat)
    requires IsRun(ss, es) && i < |ss|
    ensures ss[i].accepted == Given(es[..i]) && ss[i].lastRtp == LastTimestamp(Given(es[..i]))
    ensures ss[i].startTime != IMMEDIATELY <==> Offered(es[..i])
  {
    if i > 0 {
      AcceptsWhatIsGiven(ss, es, i - 1);
      OfferedSoFar(es, i);
      assert Enabled(ss[i - 1], es[i - 1]);
    }
  }

  /** The reference time of the first call is where the timeline starts. */
  lemma {:induction false} TimelineStartsAtFirst(ss: seq<Encoder>, es: seq<Event>, i: nat, k: nat)
    requires IsRun(ss, es) && k < i < |ss| && es[k].TryEncode? && !Offered(es[..k])
    ensures ss[i].startTime == es[k].referenceTime
  {
    AcceptsWhatIsGiven(ss, es, i - 1);
    if k < i - 1 {
      TimelineStartsAtFirst(ss, es, i - 1, k);
      assert es[..i - 1][k].TryEncode?;
    }
  }

  /**
   In every run: the frames given are taken by the encode thread once each and in order, and
   what has been sent is a prefix of them; their RTP timestamps strictly increase.
   */
  lemma FramesStayInOrder(ss: seq<Encoder>, es: seq<Event>, i: nat)
    requires IsRun(ss, es) && i < |ss|
    ensures Given(es[..i]) == Units(ss[i].taken) + ss[i].queue
    ensures ss[i].taken == ss[i].sent + ss[i].posted + InEncoder(ss[i].worker)
    ensures Units(ss[i].sent) <= Given(es[..i])
    ensures forall j, k :: 0 <= j < k < |Given(es[..i])| ==> Given(es[..i])[j].rtp < Given(es[..i])[k].rtp
  {
    AlwaysInv(ss, es, i);
    AcceptsWhatIsGiven(ss, es, i);
    var s := ss[i];
    forall j | 0 <= j < |s.sent|
      ensures s.sent[j].unit == s.accepted[j]
    {
      assert s.sent[j] == s.taken[j];
    }
  }

  /** The bitrate that the client's calls ask for: the last one, but a kilobit at least; none after the quit signal. */
  ghost function WantedBitrate(es: seq<Event>): int {
    if es == [] then 2 * 1024 * 1024
    else
      var before, e := WantedBitrate(es[..|es| - 1]), es[|es| - 1];
      match e
      case Quit => 0
      case SetBitrate(bitrate) => if before == 0 then 0 else if bitrate < 1024 then 1024 else bitrate
      case _ => before
  }

  lemma {:induction false} BitrateIsWanted(ss: seq<Encoder>, es: seq<Event>, i: nat)
    requires IsRun(ss, es) && i < |ss|
    ensures ss[i].bitrate == WantedBitrate(es[..i])
  {
    if i > 0 {
      BitrateIsWanted(ss, es, i - 1);
      AlwaysInv(ss, es, i - 1);
      assert es[..i][..i - 1] == es[..i - 1] && es[..i][i - 1] == es[i - 1];
    }
  }

  /** In every run a frame taken is the next one given, and is encoded at the bitrate wanted at that time. */
  lemma TakesTheNextGiven(ss: seq<Encoder>, es: seq<Event>, i: nat)
    requires IsRun(ss, es) && i < |es| && Dequeues(ss[i], es[i])
    ensures var n := |ss[i].taken|;
            && |ss[i + 1].taken| == n + 1 && ss[i].taken <= ss[i + 1].taken
            && n < |Given(es[..i])|
            && ss[i + 1].taken[n].unit == Given(es[..i])[n] && ss[i + 1].taken[n].bitrate == WantedBitrate(es[..i])
  {
    var s, n := ss[i], |ss[i].taken|;
    FramesStayInOrder(ss, es, i);
    BitrateIsWanted(ss, es, i);
    DequeueTakes(s, es[i]);
    assert (Units(s.taken) + s.queue)[n] == s.queue[0];
  }

  lemma DequeueTakes(s: Encoder, e: Event)
    requires Enabled(s, e) && Dequeues(s, e)
    ensures s.queue != [] && Step(s, e).taken == s.taken + [Taken(s.queue[0], s.needsKey, s.bitrate)]
  {
  }

  /** In every run, a thread that waits without having been notified has nothing to do. */
  lemma NoWakeUpIsLost(ss: seq<Encoder>, es: seq<Event>, i: nat)
    requires IsRun(ss, es) && i < |ss|
    ensures ss[i].worker == Waiting(false) ==> ss[i].queue == [] && ss[i].bitrate > 0
  {
    AlwaysInv(ss, es, i);
  }

  // ----- key frames -----

  ghost predicate Dequeues(s: Encoder, e: Event)
    requires Enabled(s, e)
  {
    |Step(s, e).taken| > |s.taken|
  }

  /** The event asks for a key frame. */
  ghost predicate RequestsKey(s: Encoder, e: Event) {
    (Accepts(s, e) && e.senderNeedsKey) || e == Send(false)
  }

  /** A request before event `i` (or the initial one, `m == -1`) that no frame has been taken for. */
  ghost predicate OpenRequest(ss: seq<Encoder>, es: seq<Event>, m: int, i: nat)
    requires IsRun(ss, es)
  {
    && -1 <= m < i <= |es|
    && (m >= 0 ==> RequestsKey(ss[m], es[m]))
    && forall k :: m < k < i ==> !Dequeues(ss[k], es[k])
  }

  lemma {:induction false} FlagIffOpenRequest(ss: seq<Encoder>, es: seq<Event>, i: nat)
    requires IsRun(ss, es) && i <= |es|
    ensures ss[i].needsKey <==> exists m :: OpenRequest(ss, es, m, i)
  {
    if i == 0 {
      assert OpenRequest(ss, es, -1, 0);
    } else {
      FlagIffOpenRequest(ss, es, i - 1);
      var s, e := ss[i - 1], es[i - 1];
      if RequestsKey(s, e) {
        assert OpenRequest(ss, es, i - 1, i);
      }
      if s.needsKey && !Dequeues(s, e) {
        var m :| OpenRequest(ss, es, m, i - 1);
        assert OpenRequest(ss, es, m, i);
      }
      if m :| OpenRequest(ss, es, m, i) {
        assert m == i - 1 || (OpenRequest(ss, es, m, i - 1) && !Dequeues(s, e));
      }
    }
  }

  /** A frame is forced to be a key frame exactly if a request was open when it was taken. */
  lemma ForcedIffRequested(ss: seq<Encoder>, es: seq<Event>, i: nat)
    requires IsRun(ss, es) && i < |es| && Dequeues(ss[i], es[i])
    ensures |ss[i + 1].taken| == |ss[i].taken| + 1
    ensures ss[i + 1].taken[|ss[i].taken|].forceKey <==> exists m :: OpenRequest(ss, es, m, i)
  {
    FlagIffOpenRequest(ss, es, i);
  }

  lemma {:induction false} TakenOnlyGrows(ss: seq<Encoder>, es: seq<Event>, i: nat, j: nat)
    requires IsRun(ss, es) && i <= j < |ss|
    ensures ss[i].taken <= ss[j].taken
  {
    if i < j {
      TakenOnlyGrows(ss, es, i, j - 1);
    }
  }

  /**
   A request is applied to the very next frame taken, which is no later than the frame that
   carried it: if frame number `a` has been taken, one not after it was forced.
   */
  lemma {:induction false} KeyFrameInTime(ss: seq<Encoder>, es: seq<Event>, m: nat, i: nat)
    requires IsRun(ss, es) && m < i < |ss|
    requires RequestsKey(ss[m], es[m])
    ensures |ss[m].taken| <= |ss[m].accepted|
    ensures |ss[i].taken| > |ss[m].taken| ==> ss[i].taken[|ss[m].taken|].forceKey
  {
    AlwaysInv(ss, es, m);
    if |ss[i].taken| > |ss[m].taken| {
      TakenOnlyGrows(ss, es, m, i - 1);
      if |ss[i - 1].taken| > |ss[m].taken| {
        KeyFrameInTime(ss, es, m, i - 1);
        TakenOnlyGrows(ss, es, i - 1, i);
      } else {
        assert ss[m + 1].taken == ss[m].taken;
        assert m < i - 1;
        NothingTaken(ss, es, m, i - 1);
        assert OpenRequest(ss, es, m, i - 1);
        ForcedIffRequested(ss, es, i - 1);
      }
    }
  }

  lemma {:induction false} NothingTaken(ss: seq<Encoder>, es: seq<Event>, m: nat, i: nat)
    requires IsRun(ss, es) && m <= i < |ss| && ss[m].taken == ss[i].taken
    ensures forall k :: m <= k < i ==> !Dequeues(ss[k], es[k])
  {
    forall k | m <= k < i
      ensures !Dequeues(ss[k], es[k])
    {
      TakenOnlyGrows(ss, es, m, k);
      TakenOnlyGrows(ss, es, k + 1, i);
    }
  }

  // ----- shutdown -----

  ghost predicate IsWorkerEvent(e: Event) {
    e.Enter? || e.Wake? || e.Finish?
  }

  /** How many more steps the encode thread can make once it has been told to quit. */
  ghost function StepsLeft(w: Worker): nat {
    match w
    case Waiting(_) => 3
    case Encoding(_) => 2
    case AtTop => 1
    case Exited => 0
  }

  ghost function WorkerSteps(es: seq<Event>, i: nat, j: nat): nat
    requires i <= j <= |es|
  {
    if i == j then 0 else WorkerSteps(es, i, j - 1) + if IsWorkerEvent(es[j - 1]) then 1 else 0
  }

  lemma {:induction false} QuitIsFinal(ss: seq<Encoder>, es: seq<Event>, q: nat, i: nat)
    requires IsRun(ss, es) && q < i < |ss| && es[q].Quit?
    ensures ss[i].bitrate == 0
    ensures StepsLeft(ss[i].worker) + WorkerSteps(es, q + 1, i) <= StepsLeft(ss[q].worker)
    ensures ss[i].accepted == ss[q].accepted
    ensures |ss[i].taken| <= |ss[q].taken| + 1
    ensures |ss[i].taken| > |ss[q].taken| ==> !ss[i].worker.Waiting?
  {
    if i > q + 1 {
      QuitIsFinal(ss, es, q, i - 1);
    }
  }

  /**
   After the quit signal the encode thread takes at most one more frame, makes at most three
   more steps, and until it has ended it can always make one: it waits only if notified.
   */
  lemma WorkerEndsAfterQuit(ss: seq<Encoder>, es: seq<Event>, q: nat, i: nat)
    requires IsRun(ss, es) && q < i < |ss| && es[q].Quit?
    ensures |ss[i].taken| <= |ss[q].taken| + 1
    ensures WorkerSteps(es, q + 1, i) <= 3
    ensures WorkerSteps(es, q + 1, i) == 3 ==> ss[i].worker.Exited?
    ensures ss[i].worker.Exited? || Enabled(ss[i], Enter) || Enabled(ss[i], Finish) || ss[i].worker == Waiting(true)
  {
    QuitIsFinal(ss, es, q, i);
    AlwaysInv(ss, es, i);
  }

  // ----- bitrate -----

  /**
   SetTargetBitrate makes sure that the encoder's bitrate is at least one kilobit.  That
   holds for exactly the frames taken before the quit signal: the one frame that may be
   taken afterwards is encoded at bitrate zero.
   */
  lemma UsableBitrateIffBeforeQuit(ss: seq<Encoder>, es: seq<Event>, i: nat)
    requires IsRun(ss, es) && i < |es| && Dequeues(ss[i], es[i])
    ensures |ss[i + 1].taken| == |ss[i].taken| + 1
    ensures ss[i + 1].taken[|ss[i].taken|].bitrate / BYTES_PER_KILOBYTE >= 1 <==> forall q :: 0 <= q < i ==> !es[q].Quit?
  {
    AlwaysInv(ss, es, i);
    BitrateZeroIffQuit(ss, es, i);
  }

  lemma {:induction false} BitrateZeroIffQuit(ss: seq<Encoder>, es: seq<Event>, i: nat)
    requires IsRun(ss, es) && i < |ss|
    ensures ss[i].bitrate == 0 <==> exists q :: 0 <= q < i && es[q].Quit?
  {
    if i > 0 {
      BitrateZeroIffQuit(ss, es, i - 1);
      AlwaysInv(ss, es, i - 1);
    }
  }

  /** A run in which a frame is encoded at bitrate zero. */
  lemma FrameTakenAfterQuit()
    ensures exists ss: seq<Encoder>, es: seq<Event> ::
      IsRun(ss, es) && |ss[|es|].taken| == 1 && ss[|es|].taken[0].bitrate == 0
  {
    var es := [Enter, TryEncode(0, 5, 0, true, false), Quit, Wake];
    var s0 := Initial();
    var s1 := Step(s0, es[0]);
    var s2 := Step(s1, es[1]);
    var s3 := Step(s2, es[2]);
    var s4 := Step(s3, es[3]);
    var ss := [s0, s1, s2, s3, s4];
    assert IsRun(ss, es);
    assert |ss[|es|].taken| == 1 && ss[|es|].taken[0].bitrate == 0;
  }
}

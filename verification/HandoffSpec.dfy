/**
 cast/standalone_sender/streaming_vpx_encoder.cc: the hand-off of frames from the main
 thread to the encode thread and back.

 Each event is one critical section of one thread.  A thread that waits on the condition
 variable may wake up at any time, whether or not it was notified; a notification while
 nobody waits is lost.  `accepted`, `taken` and `sent` are histories.
 */
module HandoffSpec {
  import opened Common

  const BYTES_PER_KILOBYTE: int := 1024
  const DEFAULT_BITRATE: int := 2 * 1024 * 1024

  /** A frame to encode; `frame` stands for the image and the rest of its metadata. */
  datatype WorkUnit = WorkUnit(rtp: int, frame: int)

  /** A frame taken off the queue, with the settings that apply to its encoding. */
  datatype Taken = Taken(unit: WorkUnit, forceKey: bool, bitrate: int)

  datatype Worker =
    | AtTop
    | Waiting(notified: bool)
    | Encoding(job: Taken)
    | Exited

  datatype Encoder = Encoder(
    startTime: Time,          // start_time_
    lastRtp: int,             // last_enqueued_rtp_timestamp_
    needsKey: bool,           // needs_key_frame_
    bitrate: int,             // target_bitrate_; zero tells the encode thread to end
    queue: seq<WorkUnit>,     // encode_queue_
    worker: Worker,
    posted: seq<Taken>,       // results on their way to the main thread
    accepted: seq<WorkUnit>,
    taken: seq<Taken>,
    sent: seq<Taken>
  )

  function Initial(): Encoder {
    Encoder(IMMEDIATELY, 0, true, DEFAULT_BITRATE, [], AtTop, [], [], [], [])
  }

  datatype Event =
    // Main thread.
    | TryEncode(frame: int, referenceTime: Time, ticks: int, fits: bool, senderNeedsKey: bool)
    | SetBitrate(bitrate: int)
    | Quit
    | Send(enqueued: bool)
    // Encode thread.
    | Enter
    | Wake
    | Finish

  function NotifyOne(w: Worker): Worker {
    if w.Waiting? then Waiting(true) else w
  }

  /** `ticks` is the reference time on the RTP timeline; `fits`: not too much media in flight. */
  function RtpOf(s: Encoder, e: Event): int
    requires e.TryEncode?
  {
    if s.startTime == IMMEDIATELY then 0 else e.ticks
  }

  predicate Accepts(s: Encoder, e: Event) {
    && e.TryEncode?
    && (s.startTime == IMMEDIATELY || s.lastRtp < RtpOf(s, e))
    && e.fits
  }

  function TryEncodeAndSend(s: Encoder, e: Event): Encoder
    requires e.TryEncode?
  {
    var s1 := if s.startTime == IMMEDIATELY then s.(startTime := e.referenceTime) else s;
    if !Accepts(s, e) then s1
    else
      var unit := WorkUnit(RtpOf(s, e), e.frame);
      s1.(lastRtp := unit.rtp,
          needsKey := s.needsKey || e.senderNeedsKey,
          queue := s.queue + [unit],
          worker := NotifyOne(s.worker),
          accepted := s.accepted + [unit])
  }

  /** The worker takes the front of the queue with the current settings. */
  function Dequeue(s: Encoder): Encoder
    requires s.queue != []
  {
    var job := Taken(s.queue[0], s.needsKey, s.bitrate);
    s.(queue := s.queue[1..], needsKey := false, worker := Encoding(job), taken := s.taken + [job])
  }

  /** A frame is reported as delivered, or the dependency chain is broken. */
  function SendEncodedFrame(s: Encoder, enqueued: bool): Encoder
    requires s.posted != []
  {
    s.(posted := s.posted[1..], sent := s.sent + [s.posted[0]], needsKey := s.needsKey || !enqueued)
  }

  predicate Enabled(s: Encoder, e: Event) {
    match e
    case TryEncode(_, referenceTime, _, _, _) => s.bitrate > 0 && referenceTime > IMMEDIATELY
    case SetBitrate(_) => true
    case Quit => s.bitrate > 0
    case Send(_) => s.bitrate > 0 && s.posted != []
    case Enter => s.worker.AtTop?
    case Wake => s.worker.Waiting?
    case Finish => s.worker.Encoding?
  }

  function Step(s: Encoder, e: Event): Encoder
    requires Enabled(s, e)
  {
    match e
    case TryEncode(_, _, _, _, _) => TryEncodeAndSend(s, e)
    case SetBitrate(bitrate) =>
      if s.bitrate > 0 then s.(bitrate := Max(bitrate, BYTES_PER_KILOBYTE)) else s
    case Quit => s.(bitrate := 0, worker := NotifyOne(s.worker))
    case Send(enqueued) => SendEncodedFrame(s, enqueued)
    case Enter =>
      if s.bitrate <= 0 then s.(worker := Exited)
      else if s.queue == [] then s.(worker := Waiting(false))
      else Dequeue(s)
    case Wake => if s.queue == [] then s.(worker := AtTop) else Dequeue(s)
    case Finish => s.(worker := AtTop, posted := s.posted + [s.worker.job])
  }

  ghost predicate IsRun(ss: seq<Encoder>, es: seq<Event>) {
    && |ss| == |es| + 1
    && ss[0] == Initial()
    && forall i :: 0 <= i < |es| ==> Enabled(ss[i], es[i]) && ss[i + 1] == Step(ss[i], es[i])
  }
}

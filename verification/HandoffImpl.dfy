/**
 cast/standalone_sender/streaming_vpx_encoder.cc in its own form: an object whose shared
 fields are changed by the critical sections of the two threads.
 */
module HandoffImpl {
  import opened Common
  import opened HandoffSpec
  import HandoffProofs

  class StreamingVpxEncoder {
    // Main thread only.
    var startTime: Time
    var lastEnqueuedRtp: int
    // Guarded by the mutex.
    var needsKeyFrame: bool
    var targetBitrate: int
    var encodeQueue: seq<WorkUnit>
    // The encode thread's place in its loop, and the results it has posted back.
    var worker: Worker
    var posted: seq<Taken>
    ghost var accepted: seq<WorkUnit>
    ghost var taken: seq<Taken>
    ghost var sent: seq<Taken>

    ghost function State(): Encoder
      reads this
    {
      Encoder(startTime, lastEnqueuedRtp, needsKeyFrame, targetBitrate, encodeQueue, worker, posted, accepted, taken, sent)
    }

    /** What every critical section keeps. */
    ghost predicate Valid()
      reads this
    {
      HandoffProofs.Inv(State())
    }

    constructor ()
      ensures Valid() && State() == Initial()
    {
      startTime, lastEnqueuedRtp, needsKeyFrame, targetBitrate := IMMEDIATELY, 0, true, DEFAULT_BITRATE;
      encodeQueue, worker, posted, accepted, taken, sent := [], AtTop, [], [], [], [];
    }

    method TryEncodeAndSend(frame: int, referenceTime: Time, ticks: int, fits: bool, senderNeedsKey: bool) returns (ok: bool)
      requires Valid() && Enabled(State(), TryEncode(frame, referenceTime, ticks, fits, senderNeedsKey))
      modifies this
      ensures Valid() && State() == Step(old(State()), TryEncode(frame, referenceTime, ticks, fits, senderNeedsKey))
      ensures ok == Accepts(old(State()), TryEncode(frame, referenceTime, ticks, fits, senderNeedsKey))
    {
      ok := EnqueueFrame(frame, referenceTime, ticks, fits, senderNeedsKey);
      HandoffProofs.StepKeepsInv(old(State()), TryEncode(frame, referenceTime, ticks, fits, senderNeedsKey));
    }

    method EnqueueFrame(frame: int, referenceTime: Time, ticks: int, fits: bool, senderNeedsKey: bool) returns (ok: bool)
      requires Enabled(State(), TryEncode(frame, referenceTime, ticks, fits, senderNeedsKey))
      modifies this
      ensures State() == Step(old(State()), TryEncode(frame, referenceTime, ticks, fits, senderNeedsKey))
      ensures ok == Accepts(old(State()), TryEncode(frame, referenceTime, ticks, fits, senderNeedsKey))
    {
      var rtp := 0;
      if startTime == IMMEDIATELY {
        startTime := referenceTime;
      } else {
        rtp := ticks;
        if rtp <= lastEnqueuedRtp {
          return false;
        }
      }
      if !fits {
        return false;
      }
      lastEnqueuedRtp := rtp;
      var unit := WorkUnit(rtp, frame);
      // The critical section.
      needsKeyFrame := needsKeyFrame || senderNeedsKey;
      encodeQueue := encodeQueue + [unit];
      worker := NotifyOne(worker);
      accepted := accepted + [unit];
      return true;
    }

    method SetTargetBitrate(newBitrate: int)
      requires Valid()
      modifies this
      ensures Valid() && State() == Step(old(State()), SetBitrate(newBitrate))
    {
      HandoffProofs.StepKeepsInv(State(), SetBitrate(newBitrate));
      var usable := Max(newBitrate, BYTES_PER_KILOBYTE);
      if targetBitrate > 0 {
        targetBitrate := usable;
      }
    }

    /** The destructor, up to the point where it waits for the encode thread. */
    method SignalQuit()
      requires Valid() && Enabled(State(), Quit)
      modifies this
      ensures Valid() && State() == Step(old(State()), Quit)
    {
      HandoffProofs.StepKeepsInv(State(), Quit);
      targetBitrate := 0;
      worker := NotifyOne(worker);
    }

    /** The task posted to the main thread; `enqueued` is the Sender's answer. */
    method OnResult(enqueued: bool)
      requires Valid() && Enabled(State(), Send(enqueued))
      modifies this
      ensures Valid() && State() == Step(old(State()), Send(enqueued))
    {
      HandoffProofs.StepKeepsInv(State(), Send(enqueued));
      var result := posted[0];
      posted := posted[1..];
      sent := sent + [result];
      if !enqueued {
        needsKeyFrame := true;
      }
    }

    /** The encode thread locks the mutex at the top of its loop. */
    method WorkerEnter()
      requires Valid() && Enabled(State(), Enter)
      modifies this
      ensures Valid() && State() == Step(old(State()), Enter)
    {
      HandoffProofs.StepKeepsInv(State(), Enter);
      if targetBitrate <= 0 {
        worker := Exited;
        return;
      }
      if encodeQueue == [] {
        worker := Waiting(false);
        return;
      }
      TakeFront();
    }

    /** The encode thread comes back from waiting, with the mutex locked. */
    method WorkerWake()
      requires Valid() && Enabled(State(), Wake)
      modifies this
      ensures Valid() && State() == Step(old(State()), Wake)
    {
      HandoffProofs.StepKeepsInv(State(), Wake);
      if encodeQueue == [] {
        worker := AtTop;
        return;
      }
      TakeFront();
    }

    method TakeFront()
      requires encodeQueue != []
      modifies this
      ensures State() == Dequeue(old(State()))
    {
      var job := Taken(encodeQueue[0], needsKeyFrame, targetBitrate);
      encodeQueue := encodeQueue[1..];
      needsKeyFrame := false;
      worker := Encoding(job);
      taken := taken + [job];
    }

    /** The frame is encoded; its result is posted to the main thread. */
    method WorkerFinish()
      requires Valid() && Enabled(State(), Finish)
      modifies this
      ensures Valid() && State() == Step(old(State()), Finish)
    {
      HandoffProofs.StepKeepsInv(State(), Finish);
      posted := posted + [worker.job];
      worker := AtTop;
    }
  }
}

/** Pacing and presentation order of inference jobs: src/shared/realesrgan-pacing.ts and
    src/core/realesrgan-frame-job.ts. */
module FrameJobs {

  // ---- the scheduler as a value ---------------------------------------------------------------

  datatype Schedule = Schedule(inFlight: set<int>, newestSeen: int, skipped: int)

  const IDLE := Schedule({}, -1, 0)

  predicate ShouldProcess(s: Schedule, frame: int, depth: nat) {
    |s.inFlight| < (if depth < 1 then 1 else depth) && frame > s.newestSeen
  }

  function MarkStarted(s: Schedule, frame: int): Schedule {
    s.(inFlight := s.inFlight + {frame}, newestSeen := if frame > s.newestSeen then frame else s.newestSeen)
  }

  function NoteSkipped(s: Schedule, frame: int): Schedule {
    if frame <= s.newestSeen then s
    else s.(skipped := s.skipped + (if |s.inFlight| > 0 then frame - s.newestSeen else 0), newestSeen := frame)
  }

  function MarkCompleted(s: Schedule, frame: int): Schedule { s.(inFlight := s.inFlight - {frame}) }

  /** `newest` is the newest submitted-but-unfinished frame, or -1. */
  ghost predicate IsNewest(inFlight: set<int>, newest: int) {
    newest in inFlight + {-1} && forall f :: f in inFlight + {-1} ==> f <= newest
  }

  ghost predicate TrailsBy(inFlight: set<int>, frame: int, threshold: int) {
    exists newest :: newest in inFlight + {-1} && newest - frame > threshold
  }

  lemma HasMember(s: set<int>)
    requires s != {}
    ensures exists f :: f in s
  {
    assert (forall f :: f !in s) ==> s == {};
  }

  // ---- the classes ------------------------------------------------------------------------------

  class FrameScheduler {
    var inFlight: set<int>
    var newestSeen: int
    var skipped: int

    ghost function State(): Schedule
      reads this
    {
      Schedule(inFlight, newestSeen, skipped)
    }

    constructor ()
      ensures State() == IDLE
    {
      inFlight, newestSeen, skipped := {}, -1, 0;
    }

    method NewestInFlight() returns (newest: int)
      ensures IsNewest(inFlight, newest)
    {
      newest := -1;
      var rest := inFlight;
      while rest != {}
        invariant rest <= inFlight && IsNewest(inFlight - rest, newest)
        decreases |rest|
      {
        ghost var seen := inFlight - rest;
        HasMember(rest);
        var frame :| frame in rest;
        if frame > newest {
          newest := frame;
        }
        rest := rest - {frame};
        assert inFlight - rest == seen + {frame};
      }
      assert inFlight - rest == inFlight;
    }

    method Skip(frame: int)
      modifies this
      ensures State() == NoteSkipped(old(State()), frame)
    {
      if frame <= newestSeen {
        return;
      }
      if |inFlight| > 0 {
        skipped := skipped + frame - newestSeen;
      }
      newestSeen := frame;
    }

    method Start(frame: int)
      modifies this
      ensures State() == MarkStarted(old(State()), frame)
    {
      inFlight := inFlight + {frame};
      if frame > newestSeen {
        newestSeen := frame;
      }
    }

    method Complete(frame: int)
      modifies this
      ensures State() == MarkCompleted(old(State()), frame)
    {
      inFlight := inFlight - {frame};
    }

    method Reset()
      modifies this
      ensures State() == IDLE
    {
      inFlight, newestSeen, skipped := {}, -1, 0;
    }
  }

  class FrameJobRunner {
    const scheduler: FrameScheduler
    var presentedFrame: int

    constructor (scheduler: FrameScheduler)
      ensures presentedFrame == -1 && this.scheduler == scheduler
    {
      presentedFrame := -1;
      this.scheduler := scheduler;
    }

    /** True starts the job, false counts the frame as skipped. */
    method Submit(frame: int, depth: nat) returns (started: bool)
      modifies scheduler
      ensures started == old(ShouldProcess(scheduler.State(), frame, depth))
      ensures started <==> old(scheduler.newestSeen) < frame
                           && (old(|scheduler.inFlight|) == 0 || old(|scheduler.inFlight|) < depth)
      ensures scheduler.State() ==
        if started then MarkStarted(old(scheduler.State()), frame) else NoteSkipped(old(scheduler.State()), frame)
    {
      var slots := if depth < 1 then 1 else depth;
      if !(|scheduler.inFlight| < slots && frame > scheduler.newestSeen) {
        scheduler.Skip(frame);
        return false;
      }
      scheduler.Start(frame);
      return true;
    }

    /** Granted exactly to frames above everything granted before. */
    method ClaimPresentation(frame: int) returns (granted: bool)
      modifies this
      ensures granted == (frame > old(presentedFrame))
      ensures presentedFrame == if frame > old(presentedFrame) then frame else old(presentedFrame)
    {
      if frame <= presentedFrame {
        return false;
      }
      presentedFrame := frame;
      return true;
    }

    method ShouldStaleSkip(frame: int, threshold: int) returns (skip: bool)
      ensures skip == TrailsBy(scheduler.inFlight, frame, threshold)
    {
      var newest := scheduler.NewestInFlight();
      skip := newest - frame > threshold;
    }

    method Reset()
      modifies this, scheduler
      ensures presentedFrame == -1 && scheduler.State() == IDLE
    {
      presentedFrame := -1;
      scheduler.Reset();
    }
  }
}

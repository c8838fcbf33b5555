/** When frames start and when they are skipped as overtaken, in numbers. */
module AdmissionLaws {
  import opened Wrappers
  import opened StagingSlots
  import opened FrameJobs
  import opened FramePipeline
  import opened FramePipelineLaws

  // ---- starting -------------------------------------------------------------------------------------------

  /** A frame whose copy is done starts exactly if it is new and fewer frames are in flight than the depth,
      or none where the depth is not positive. A frame that does not start leaves the pipeline. */
  lemma StartsIff(s: State, f: int, ok: bool)
    requires f in s.jobs && s.jobs[f].phase.Copying? && f !in s.log.started
    ensures var t := Step(s, WorkDone(f, ok));
      var starts := ok && s.schedule.newestSeen < f
                    && (|s.schedule.inFlight| == 0 || |s.schedule.inFlight| < s.depth);
      && (f in t.log.started <==> starts)
      && (f in t.jobs <==> starts)
      && t.schedule.inFlight == if starts then s.schedule.inFlight + {f} else s.schedule.inFlight
  {
    hide ReleaseSlot;
  }

  /** A frame reaches the queue: its pass, its submit, and the end of its copy. */
  function Submitted(f: int): seq<Event> { [Pass(true), AfterSubmit, WorkDone(f, true)] }

  function SubmittedUpTo(n: nat): seq<Event> { if n == 0 then [] else SubmittedUpTo(n - 1) + Submitted(n) }

  function UpTo(n: nat): set<int> { if n == 0 then {} else UpTo(n - 1) + {n as int} }

  lemma {:induction false} UpToIs(n: nat)
    ensures |UpTo(n)| == n && forall f :: f in UpTo(n) <==> 1 <= f <= n
  {
    if n > 0 { UpToIs(n - 1); }
  }

  /** The slots with the first n taken. */
  function Taken(count: nat, n: nat): Slots { Slots(seq(count, k => k < n), if n < count then n else 0, None) }

  /** Frames 1 to n hold the first n slots and are in flight. */
  ghost predicate Filled(s: State, count: nat, depth: nat, n: nat) {
    && s.slots == Taken(count, n) && s.frames == n && !s.destroyed && s.depth == depth
    && s.schedule.inFlight == UpTo(n) && s.schedule.newestSeen == if n == 0 then -1 else n
  }

  lemma {:induction false} RunAfter(s: State, a: seq<Event>, b: seq<Event>)
    ensures Run(s, a + b) == Run(Run(s, a), b)
    decreases |a|
  {
    hide Step;
    if a == [] {
      assert a + b == b;
    } else {
      assert (a + b)[0] == a[0] && (a + b)[1..] == a[1..] + b;
      RunAfter(Step(s, a[0]), a[1..], b);
    }
  }

  lemma ClaimTakesNext(count: nat, n: nat)
    requires n < count
    ensures ClaimSlot(Taken(count, n)) == (Taken(count, n + 1), Some(n))
  {
    var slots := Taken(count, n);
    assert Candidate(count, n, 0) == n;
    assert FirstFree(slots.busy, n, 0) == Some(n);
    assert slots.busy[n := true] == seq(count, k => k < n + 1);
    assert (n + 1) % count == if n + 1 < count then n + 1 else 0;
  }

  /** A frame is rendered and submitted: it waits for its copy in the next slot. */
  lemma SubmitsNext(s: State, count: nat, depth: nat, n: nat)
    requires Filled(s, count, depth, n) && n < count
    ensures var t := Step(Step(s, Pass(true)), AfterSubmit);
      && t.slots == Taken(count, n + 1) && t.frames == n + 1 && !t.destroyed && t.depth == depth && t.schedule == s.schedule
      && n + 1 in t.jobs && t.jobs[n + 1].phase.Copying?
  {
    ClaimTakesNext(count, n);
    hide ClaimSlot, Taken, UpTo;
  }

  lemma ThreeSteps(s: State, f: int)
    ensures Run(s, Submitted(f)) == Step(Step(Step(s, Pass(true)), AfterSubmit), WorkDone(f, true))
  {
    hide Step;
    var e1, e2 := [AfterSubmit, WorkDone(f, true)], [WorkDone(f, true)];
    var s1 := Step(s, Pass(true));
    var s2 := Step(s1, AfterSubmit);
    var s3 := Step(s2, WorkDone(f, true));
    assert Submitted(f)[1..] == e1 && e1[1..] == e2 && e2[1..] == [];
    assert Run(s, Submitted(f)) == Run(s1, e1) == Run(s2, e2) == Run(s3, []);
  }

  lemma OneMore(s: State, count: nat, depth: nat, n: nat)
    requires Filled(s, count, depth, n) && n < count && (n == 0 || n < depth)
    ensures Filled(Run(s, Submitted(n + 1)), count, depth, n + 1)
  {
    SubmitsNext(s, count, depth, n);
    ThreeSteps(s, n + 1);
    UpToIs(n);
    hide Taken, PassStep, AfterSubmitStep, Run;
  }

  lemma StartFilled(count: nat, depth: nat)
    requires 0 < count
    ensures Filled(Start(count, depth), count, depth, 0)
  {
    assert seq(count, k => k < 0) == seq(count, _ => false);
  }

  lemma {:induction false} FillsUp(count: nat, depth: nat, n: nat)
    requires 0 < count && n <= count && (n <= 1 || n <= depth)
    ensures Filled(Run(Start(count, depth), SubmittedUpTo(n)), count, depth, n)
  {
    hide Run, Step, Filled, Start, Submitted;
    var s := Start(count, depth);
    if n == 0 {
      StartFilled(count, depth);
      NothingRun(s);
    } else {
      FillsUp(count, depth, n - 1);
      RunAfter(s, SubmittedUpTo(n - 1), Submitted(n));
      OneMore(Run(s, SubmittedUpTo(n - 1)), count, depth, n - 1);
    }
  }

  lemma NothingRun(s: State)
    ensures Run(s, []) == s
  {
  }

  /** Every depth up to the number of slots is used to the full: some run has that many frames in flight,
      and with one more slot the next frame's turn is refused. */
  lemma DepthIsReached(count: nat, depth: nat)
    requires 1 <= depth <= count
    ensures |Run(Start(count, depth), SubmittedUpTo(depth)).schedule.inFlight| == depth
    ensures depth < count ==>
              |Run(Start(count, depth), SubmittedUpTo(depth) + Submitted(depth + 1)).schedule.inFlight| == depth
  {
    FillsUp(count, depth, depth);
    UpToIs(depth);
    if depth < count {
      var s := Run(Start(count, depth), SubmittedUpTo(depth));
      RunAfter(Start(count, depth), SubmittedUpTo(depth), Submitted(depth + 1));
      NoMore(s, count, depth);
    }
  }

  lemma NoMore(s: State, count: nat, depth: nat)
    requires Filled(s, count, depth, depth) && 1 <= depth < count
    ensures Run(s, Submitted(depth + 1)).schedule.inFlight == s.schedule.inFlight
  {
    SubmitsNext(s, count, depth, depth);
    ThreeSteps(s, depth + 1);
    UpToIs(depth);
    hide Taken, PassStep, AfterSubmitStep, Run;
  }

  // ---- stale skips ----------------------------------------------------------------------------------------

  /** A frame at least seven newer is submitted and unfinished. */
  ghost predicate Overtaken(s: State, f: int) { exists g :: g in s.schedule.inFlight && f + 7 <= g }

  lemma StaleIs(s: State, f: int)
    requires 0 <= f
    ensures StaleSkips(s, f) <==> s.landed && !s.destroyed && Overtaken(s, f)
  {
    if Overtaken(s, f) {
      var g :| g in s.schedule.inFlight && f + 7 <= g;
      assert g in s.schedule.inFlight + {-1};
    }
  }

  /** Where its drain begins, a frame is skipped as stale exactly if a result has landed, the pipeline
      stands, and a frame at least seven newer is in flight. */
  lemma EnterStaleIff(s: State, f: int, first: Grab, second: Grab, keeps: set<int>)
    requires 0 <= f && f in s.jobs && s.jobs[f].phase.Queued? && f !in s.log.stale
    ensures f in Step(s, Enter(f, first, second, keeps)).log.stale <==> s.landed && !s.destroyed && Overtaken(s, f)
  {
    StaleIs(s, f);
    hide StaleSkips, Overtaken, ReleaseSlot;
  }

  /** And behind its readback, exactly if besides that the frame was read and the gate does not hold it. */
  lemma MappedStaleIff(s: State, f: int, readback: Readback, keeps: set<int>)
    requires 0 <= f && f in s.jobs && s.jobs[f].phase.Mapping? && f !in s.log.stale
    ensures f in Step(s, Mapped(f, readback, keeps)).log.stale <==>
            && readback.Frame? && readback.crop != Some(Throws) && !HoldsRepeat(s, readback.content)
            && s.landed && !s.destroyed && Overtaken(s, f)
  {
    hide ReleaseSlot, Observe;
    if readback.Frame? {
      var t := Observed(s, f, readback.content);
      StaleIs(t, f);
      StaleIs(s, f);
      assert Overtaken(t, f) <==> Overtaken(s, f);
      if readback.crop.Some? && readback.crop.value.Takes? {
        var s' := s.(pool := Acquire(s.pool, readback.crop.value.pick).0);
        StaleIs(Observed(s', f, readback.content), f);
      }
    }
    hide StaleSkips, Overtaken;
  }

  // ---- what a refusal counts -----------------------------------------------------------------------------

  /** Frames refused one after the other. */
  function Refused(s: Schedule, frames: seq<int>): Schedule {
    if frames == [] then s else NoteSkipped(Refused(s, frames[..|frames| - 1]), frames[|frames| - 1])
  }

  ghost predicate Rising(low: int, frames: seq<int>) {
    (forall i :: 0 <= i < |frames| ==> low < frames[i]) && forall i, j :: 0 <= i < j < |frames| ==> frames[i] < frames[j]
  }

  /** While work is in flight the counter rises by as many frames as have gone by, seen or not; while none
      is, it stands still. */
  lemma {:induction false} SkippedCountsFrames(s: Schedule, frames: seq<int>)
    requires Rising(s.newestSeen, frames)
    ensures var t, last := Refused(s, frames), if frames == [] then s.newestSeen else frames[|frames| - 1];
      && t.newestSeen == last && t.inFlight == s.inFlight
      && t.skipped == s.skipped + if s.inFlight == {} then 0 else last - s.newestSeen
  {
    if frames != [] {
      SkippedCountsFrames(s, frames[..|frames| - 1]);
    }
  }

  // ---- dispatch and presentation -----------------------------------------------------------------------------

  /** A frame read back is handed to the network exactly if the pipeline stands, its crop could be cut, the
      session takes it, no frame at least seven newer is in flight behind a landed result, and it is not the
      third frame of one content, or a later one, behind a landed result. */
  lemma DispatchedIff(s: State, f: int, content: int, crop: Option<Grab>, dispatches: bool, keeps: set<int>)
    requires 0 <= f && f in s.jobs && s.jobs[f].phase.Mapping?
    ensures var t := Step(s, Mapped(f, Frame(content, crop, dispatches), keeps));
      f in t.jobs && (t.jobs[f].phase.Inferring? <==>
        && !s.destroyed && crop != Some(Throws) && dispatches
        && !(s.landed && Overtaken(s, f))
        && !(s.landed && s.still.last == Some(content) && 2 <= s.still.run))
  {
    hide ReleaseSlot;
    var t := Observed(s, f, content);
    StaleIs(t, f);
    StaleIs(s, f);
    assert Overtaken(t, f) <==> Overtaken(s, f);
    if crop.Some? && crop.value.Takes? {
      var s' := s.(pool := Acquire(s.pool, crop.value.pick).0);
      StaleIs(Observed(s', f, content), f);
    }
    hide StaleSkips, Overtaken;
  }

  /** The run the gate counts: one more for the content it saw last, else one. */
  lemma RunCounts(s: State, f: int, content: int)
    ensures var t := Observed(s, f, content);
      t.still.last == Some(content) && t.still.run == (if s.still.last == Some(content) then s.still.run + 1 else 1)
  {
  }

  /** A result is painted exactly if the pipeline stands, no newer one was granted the output, and its
      write succeeds; then it is the picture on the output. */
  lemma PaintedIff(s: State, f: int, inference: Inference, keeps: set<int>)
    requires f in s.jobs && s.jobs[f].phase.Inferring?
    ensures var t := Step(s, Inferred(f, inference, keeps));
      if inference == Result(Painted) && !s.destroyed && s.watermark < f
      then t.log.shown == s.log.shown + [f] && t.picture == Some(s.jobs[f].phase.content) && t.landed && t.watermark == f
      else t.log.shown == s.log.shown && t.picture == s.picture
  {
    hide ReleaseSlot;
  }

  // ---- buffers and the end ---------------------------------------------------------------------------------

  /** A drain that is not skipped takes its two buffers from the pool where the pool has them. */
  lemma EnterTakesBuffers(s: State, f: int, p: int, q: int, keeps: set<int>)
    requires 0 <= f && f in s.jobs && s.jobs[f].phase.Queued? && !(s.landed && !s.destroyed && Overtaken(s, f))
    requires p in s.pool.free && q in s.pool.free && p != q
    ensures var t := Step(s, Enter(f, Takes(p), Takes(q), keeps));
      t.jobs == s.jobs[f := Job(s.jobs[f].slot, Mapping({p, q}))] && t.pool.free == s.pool.free - {p, q}
  {
    StaleIs(s, f);
    hide StaleSkips, Overtaken;
  }

  /** Whatever becomes of a result, its drain ends: the buffers it holds go back, those the pool keeps into
      the pool, and its slot is free. */
  lemma DrainEnds(s: State, f: int, inference: Inference, keeps: set<int>)
    requires f in s.jobs && s.jobs[f].phase.Inferring? && s.jobs[f].slot < |s.slots.busy|
    ensures var t, held := Step(s, Inferred(f, inference, keeps)), s.jobs[f].phase.held;
      && t.pool.free == s.pool.free + (held * keeps) && t.pool.back == s.pool.back + multiset(held)
      && t.slots.busy == s.slots.busy[s.jobs[f].slot := false]
      && t.jobs == s.jobs[f := Job(s.jobs[f].slot, Done)]
  {
  }

  /** Destroying a pipeline forgets what is in flight, what was granted and what is pooled, once; the slots
      stay with their frames. */
  lemma DestroyIs(s: State)
    ensures var t := Step(s, Destroy);
      t.destroyed && t.slots == s.slots && t.jobs == s.jobs
      && (if s.destroyed then t == s
          else t.schedule.inFlight == {} && t.schedule.newestSeen == -1 && t.schedule.skipped == 0
               && t.watermark == -1 && t.pool.free == {})
  {
  }
}

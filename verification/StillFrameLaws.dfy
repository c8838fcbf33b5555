/** Single frames and still images: what an idle pipeline makes of a frame, and when the still-frame
    gate of src/core/realesrgan-drain-processor.ts is right that its picture is up. */
module StillFrameLaws {
  import opened Arith
  import opened Wrappers
  import opened StagingSlots
  import opened FrameJobs
  import opened FramePipeline
  import opened FramePipelineLaws

  // ---- one frame at a time ------------------------------------------------------------------------------

  /** Nothing under way, and no frame number ahead of the counter. */
  ghost predicate Idle(s: State) {
    && s.slots.cursor < |s.slots.busy| && (forall i :: 0 <= i < |s.slots.busy| ==> !s.slots.busy[i])
    && Quiet(s) && !s.destroyed && s.schedule.inFlight == {}
    && s.schedule.newestSeen <= s.frames && s.watermark <= s.frames && 0 <= s.frames
  }

  /** The callbacks of a frame that has the pipeline to itself, up to the start of its drain. */
  function Submission(f: int): seq<Event> { [Pass(true), AfterSubmit, WorkDone(f, true)] }

  /** And from there on. */
  function Drain(f: int, content: int, inference: Inference): seq<Event> {
    [Enter(f, Takes(0), Takes(0), {}), Mapped(f, Frame(content, None, true), {}), Inferred(f, inference, {}), Completed(f)]
  }

  lemma {:induction false} RunAppend(s: State, a: seq<Event>, b: seq<Event>)
    ensures Run(s, a + b) == Run(Run(s, a), b)
    decreases |a|
  {
    if a == [] {
      assert a + b == b;
    } else {
      assert (a + b)[0] == a[0] && (a + b)[1..] == a[1..] + b;
      RunAppend(Step(s, a[0]), a[1..], b);
    }
  }

  lemma RunCons(s: State, e: Event, rest: seq<Event>)
    ensures Run(s, [e] + rest) == Run(Step(s, e), rest)
  {
    assert ([e] + rest)[1..] == rest;
  }

  lemma SubmitAlone(s: State)
    requires Idle(s)
    ensures var f := s.frames + 1;
      var t := Run(s, Submission(f));
      && t == s.(slots := t.slots, frames := f, jobs := map[f := Job(s.slots.cursor, Queued)],
                 schedule := MarkStarted(s.schedule, f),
                 log := s.log.(granted := s.log.granted + {f}, started := s.log.started + {f}))
      && t.slots == Slots(s.slots.busy[s.slots.cursor := true], (s.slots.cursor + 1) % |s.slots.busy|, None)
  {
    var f, k := s.frames + 1, s.slots.cursor;
    DivModUnique(k, |s.slots.busy|, 0, k);
    var s1 := Step(s, Pass(true));
    assert Candidate(|s.slots.busy|, k, 0) == k;
    assert s1.slots == Slots(s.slots.busy[k := true], (k + 1) % |s.slots.busy|, Some(Pending(k, f)));
    var s2 := Step(s1, AfterSubmit);
    assert s2.jobs == map[f := Job(k, Copying)];
    RunCons(s, Pass(true), [AfterSubmit, WorkDone(f, true)]);
    assert Submission(f) == [Pass(true)] + [AfterSubmit, WorkDone(f, true)];
    RunCons(s1, AfterSubmit, [WorkDone(f, true)]);
    assert [AfterSubmit, WorkDone(f, true)] == [AfterSubmit] + [WorkDone(f, true)];
    RunCons(s2, WorkDone(f, true), []);
    assert [WorkDone(f, true)] == [WorkDone(f, true)] + [];
  }

  predicate Shows(s: State, content: int, inference: Inference) {
    !HoldsRepeat(s, content) && inference == Result(Painted)
  }

  /** The first result counts as landed even when a crop that does not fit was skipped. */
  predicate Lands(s: State, content: int, inference: Inference) {
    !HoldsRepeat(s, content) && (inference == Result(Painted) || inference == Result(CropSkipped))
  }

  lemma EnterAlone(s: State, f: int, k: nat)
    requires s.jobs == map[f := Job(k, Queued)] && s.schedule.inFlight == {f} && !s.destroyed && 1 <= f
    ensures var t := Step(s, Enter(f, Takes(0), Takes(0), {}));
      && f in t.jobs && t.jobs[f].phase.Mapping?
      && t == s.(pool := t.pool, jobs := map[f := Job(k, Mapping(t.jobs[f].phase.held))])
  {
    var t := Step(s, Enter(f, Takes(0), Takes(0), {}));
    assert !StaleSkips(s, f);
    assert t.jobs[f].phase.Mapping?;
    assert t.jobs == map[f := Job(k, Mapping(t.jobs[f].phase.held))];
  }

  /** With its drain over, a lone frame has given its slot back; nothing else about slots, frames
      and schedule has changed. */
  ghost predicate Returned(s: State, t: State, f: int, k: nat)
    requires k < |s.slots.busy|
  {
    && t.slots == s.slots.(busy := s.slots.busy[k := false]) && t.jobs == map[f := Job(k, Done)]
    && t.frames == s.frames && t.depth == s.depth && t.schedule == s.schedule && t.destroyed == s.destroyed
  }

  /** The gate's records after a frame, and the frames shown. */
  ghost predicate Records(s: State, t: State, f: int, content: int, shows: bool) {
    && t.log.seen == s.log.seen[f := content]
    && t.log.run == (if s.still.last == Some(content) then s.log.run + {f} else {f})
    && t.log.shown == (if shows then s.log.shown + [f] else s.log.shown)
  }

  lemma MapAlone(s: State, f: int, k: nat, content: int)
    requires f in s.jobs && s.jobs[f].phase.Mapping? && s.jobs == map[f := Job(k, s.jobs[f].phase)]
    requires s.schedule.inFlight == {f} && !s.destroyed && 1 <= f && k < |s.slots.busy|
    ensures var t := Step(s, Mapped(f, Frame(content, None, true), {}));
      && t.still == Observe(s.still, content) && t.landed == s.landed && t.picture == s.picture && t.watermark == s.watermark
      && Records(s, t, f, content, false)
      && if HoldsRepeat(s, content) then Returned(s, t, f, k)
         else t == Observed(s, f, content).(jobs := map[f := Job(k, Inferring(s.jobs[f].phase.held, content))])
  {
    assert !StaleSkips(Observed(s, f, content), f);
  }

  lemma InferAlone(s: State, f: int, k: nat, inference: Inference)
    requires f in s.jobs && s.jobs[f].phase.Inferring? && s.jobs == map[f := Job(k, s.jobs[f].phase)]
    requires !s.destroyed && s.watermark < f && k < |s.slots.busy|
    ensures var t := Step(s, Inferred(f, inference, {}));
      && Returned(s, t, f, k) && t.still == s.still && s.watermark <= t.watermark <= f
      && t.log.seen == s.log.seen && t.log.run == s.log.run
      && t.log.shown == (if inference == Result(Painted) then s.log.shown + [f] else s.log.shown)
      && t.landed == (s.landed || inference == Result(Painted) || inference == Result(CropSkipped))
      && t.picture == (if inference == Result(Painted) then Some(s.jobs[f].phase.content) else s.picture)
  {
  }

  lemma DrainAlone(s: State, f: int, k: nat, content: int, inference: Inference)
    requires s.jobs == map[f := Job(k, Queued)] && s.schedule.inFlight == {f} && !s.destroyed && s.watermark < f
    requires 1 <= f && k < |s.slots.busy|
    ensures var t := Run(s, Drain(f, content, inference));
      && t.slots == s.slots.(busy := s.slots.busy[k := false]) && t.jobs == map[] && t.frames == s.frames && t.depth == s.depth
      && t.schedule == s.schedule.(inFlight := {}) && s.watermark <= t.watermark <= f && !t.destroyed
      && t.still == Observe(s.still, content) && Records(s, t, f, content, Shows(s, content, inference))
      && t.landed == (s.landed || Lands(s, content, inference))
      && t.picture == (if Shows(s, content, inference) then Some(content) else s.picture)
  {
    hide EnterStep, MappedStep, InferredStep, Run;
    var e1 := Enter(f, Takes(0), Takes(0), {});
    var e2 := Mapped(f, Frame(content, None, true), {});
    var e3 := Inferred(f, inference, {});
    var s1 := Step(s, e1);
    EnterAlone(s, f, k);
    var s2 := Step(s1, e2);
    MapAlone(s1, f, k, content);
    var s3 := Step(s2, e3);
    if !HoldsRepeat(s, content) { InferAlone(s2, f, k, inference); }
    RunFour(s, e1, e2, e3, Completed(f));
  }

  lemma RunFour(s: State, e1: Event, e2: Event, e3: Event, e4: Event)
    ensures Run(s, [e1, e2, e3, e4]) == Step(Step(Step(Step(s, e1), e2), e3), e4)
  {
    hide Step;
    var s1 := Step(s, e1);
    var s2 := Step(s1, e2);
    var s3 := Step(s2, e3);
    RunCons(s, e1, [e2, e3, e4]);
    assert [e1, e2, e3, e4] == [e1] + [e2, e3, e4];
    RunCons(s1, e2, [e3, e4]);
    assert [e2, e3, e4] == [e2] + [e3, e4];
    RunCons(s2, e3, [e4]);
    assert [e3, e4] == [e3] + [e4];
    RunCons(s3, e4, []);
    assert [e4] == [e4] + [];
  }

  /** A frame alone is always admitted and served: an idle pipeline is idle again after it, and
      the canvas shows its content unless it was held, its inference or its write failed, or its
      crop was skipped. */
  lemma AloneIsServed(s: State, content: int, inference: Inference)
    requires Idle(s)
    ensures var t := Run(s, Submission(s.frames + 1) + Drain(s.frames + 1, content, inference));
      && Idle(t) && t.frames == s.frames + 1 && t.depth == s.depth && t.still == Observe(s.still, content)
      && Records(s, t, s.frames + 1, content, Shows(s, content, inference))
      && t.landed == (s.landed || Lands(s, content, inference))
      && t.picture == (if Shows(s, content, inference) then Some(content) else s.picture)
  {
    hide Step, Run;
    var f := s.frames + 1;
    RunAppend(s, Submission(f), Drain(f, content, inference));
    SubmitAlone(s);
    var m := Run(s, Submission(f));
    DrainAlone(m, f, s.slots.cursor, content, inference);
    var t := Run(m, Drain(f, content, inference));
    assert t.slots.busy == s.slots.busy;
    assert HoldsRepeat(m, content) == HoldsRepeat(s, content);
  }

  /** Frames one at a time. */
  function Serial(first: int, inputs: seq<(int, Inference)>): seq<Event>
    decreases |inputs|
  {
    if inputs == [] then []
    else Submission(first) + Drain(first, inputs[0].0, inputs[0].1) + Serial(first + 1, inputs[1..])
  }

  lemma SerialStep(s: State, inputs: seq<(int, Inference)>)
    requires inputs != []
    ensures Run(s, Serial(s.frames + 1, inputs))
            == Run(Run(s, Submission(s.frames + 1) + Drain(s.frames + 1, inputs[0].0, inputs[0].1)),
                   Serial(s.frames + 2, inputs[1..]))
  {
    hide Submission, Drain, Step;
    RunAppend(s, Submission(s.frames + 1) + Drain(s.frames + 1, inputs[0].0, inputs[0].1), Serial(s.frames + 2, inputs[1..]));
  }

  /** Once a content was observed twice, its repeats leave the canvas as it is, whatever their inference
      would have made of them. */
  lemma {:induction false} RepeatsKeepThePicture(s: State, content: int, repeats: seq<(int, Inference)>)
    requires Idle(s) && s.landed && s.still.last == Some(content) && HOLD_AFTER - 1 <= s.still.run
    requires forall i :: 0 <= i < |repeats| ==> repeats[i].0 == content
    ensures Run(s, Serial(s.frames + 1, repeats)).picture == s.picture
    decreases |repeats|
  {
    hide Step, Submission, Drain, Idle;
    if repeats != [] {
      AloneIsServed(s, content, repeats[0].1);
      SerialStep(s, repeats);
      RepeatsKeepThePicture(Run(s, Submission(s.frames + 1) + Drain(s.frames + 1, content, repeats[0].1)), content, repeats[1..]);
    }
  }

  /** A new still image on an idle pipeline is on the canvas after its first two frames and any number of
      repeats exactly if one of those two was painted: a failed inference, a failed write and a skipped
      crop count alike, and no repeat makes up for them. */
  lemma StillImageShownIff(s: State, content: int, first: Inference, second: Inference, repeats: seq<(int, Inference)>)
    requires Idle(s) && s.landed && s.still.last != Some(content) && s.picture != Some(content)
    requires forall i :: 0 <= i < |repeats| ==> repeats[i].0 == content
    ensures Run(s, Serial(s.frames + 1, [(content, first), (content, second)] + repeats)).picture == Some(content)
            <==> first == Result(Painted) || second == Result(Painted)
  {
    hide Step, Submission, Drain, Idle;
    var all := [(content, first), (content, second)] + repeats;
    assert all[1..] == [(content, second)] + repeats && all[1..][1..] == repeats;
    AloneIsServed(s, content, first);
    SerialStep(s, all);
    var t := Run(s, Submission(s.frames + 1) + Drain(s.frames + 1, content, first));
    AloneIsServed(t, content, second);
    SerialStep(t, all[1..]);
    var u := Run(t, Submission(t.frames + 1) + Drain(t.frames + 1, content, second));
    RepeatsKeepThePicture(u, content, repeats);
  }

  // ---- what a hold finds, over every interleaving -----------------------------------------------------------

  /** The gate's records: the run is the frames last observed with one content, every frame shown was
      observed, and the picture is the content of the newest frame shown. */
  ghost predicate Gate(s: State) {
    && s.log.seen.Keys <= s.log.started && s.still.run == |s.log.run|
    && (forall f :: f in s.log.run ==> f in s.log.seen && s.still.last == Some(s.log.seen[f]))
    && (forall f :: f in s.jobs && (s.jobs[f].phase.Queued? || s.jobs[f].phase.Mapping?) ==> f !in s.log.seen)
    && (forall f :: f in s.jobs && s.jobs[f].phase.Inferring? ==>
          f in s.log.seen && s.log.seen[f] == s.jobs[f].phase.content)
    && (forall f :: f in s.log.shown ==> f in s.log.seen)
    && s.picture == Newest(s.log)
  }

  /** The content of the newest frame shown. */
  ghost function Newest(log: Log): Option<int> {
    if log.shown != [] && Last(log.shown) in log.seen then Some(log.seen[Last(log.shown)]) else None
  }

  /** A step that observes and shows nothing. */
  lemma SameGate(s: State, t: State)
    requires Gate(s) && t.still == s.still && t.picture == s.picture
    requires t.log.seen == s.log.seen && t.log.run == s.log.run && t.log.shown == s.log.shown
    requires s.log.started <= t.log.started
    requires forall f :: f in t.jobs && (t.jobs[f].phase.Queued? || t.jobs[f].phase.Mapping?) ==> f !in s.log.seen
    requires forall f :: f in t.jobs && t.jobs[f].phase.Inferring? ==> f in s.jobs && s.jobs[f].phase == t.jobs[f].phase
    ensures Gate(t)
  {
  }

  lemma ObservedGate(s: State, f: int, content: int)
    requires Gate(s) && f in s.jobs && s.jobs[f].phase.Mapping? && f in s.log.started
    ensures var t := Observed(s, f, content);
      && t.still.run == |t.log.run| && t.picture == Newest(t.log) && t.log.seen.Keys <= t.log.started
      && (forall g :: g in t.log.run ==> g in t.log.seen && t.still.last == Some(t.log.seen[g]))
      && (forall g :: g in s.jobs && g != f && (s.jobs[g].phase.Queued? || s.jobs[g].phase.Mapping?) ==> g !in t.log.seen)
      && (forall g :: g in s.jobs && g != f && s.jobs[g].phase.Inferring? ==>
            g in t.log.seen && t.log.seen[g] == s.jobs[g].phase.content)
      && (forall g :: g in s.log.shown ==> g in t.log.seen)
  {
    assert f !in s.log.run && f !in s.log.seen;
    if s.log.shown != [] { assert Last(s.log.shown) in s.log.shown; }
    assert |s.log.run + {f}| == |s.log.run| + 1;
  }

  lemma DecideGate(s: State, f: int, held: set<int>, content: int, dispatches: bool, keeps: set<int>)
    requires Gate(s) && f in s.jobs && s.jobs[f].phase.Mapping? && f in s.log.started
    ensures Gate(DecideStep(s, f, held, content, dispatches, keeps))
  {
    hide Observed, StaleSkips, DecideStep;
    ObservedGate(s, f, content);
    DecideKeepsRecords(s, f, held, content, dispatches, keeps);
  }

  /** Behind the observation a drain only ends or goes on to infer what was observed. */
  lemma DecideKeepsRecords(s: State, f: int, held: set<int>, content: int, dispatches: bool, keeps: set<int>)
    requires f in s.jobs
    ensures var t, u := Observed(s, f, content), DecideStep(s, f, held, content, dispatches, keeps);
      && u.still == t.still && u.picture == s.picture && u.log.shown == s.log.shown && u.log.started == s.log.started
      && u.log.seen == t.log.seen && u.log.run == t.log.run && f in u.log.seen && u.log.seen[f] == content
      && f in u.jobs && u.jobs == s.jobs[f := u.jobs[f]]
      && (u.jobs[f].phase.Done? || (u.jobs[f].phase.Inferring? && u.jobs[f].phase.content == content))
      && t.picture == s.picture && t.log.shown == s.log.shown && t.log.started == s.log.started
  {
  }

  lemma MappedGate(s: State, f: int, readback: Readback, keeps: set<int>)
    requires Gate(s) && f in s.jobs && s.jobs[f].phase.Mapping? && f in s.log.started
    ensures Gate(MappedStep(s, f, readback, keeps))
  {
    hide DecideStep, Newest;
    var held := s.jobs[f].phase.held;
    if readback.Frame? && !s.destroyed && readback.crop != Some(Throws) {
      if readback.crop.None? {
        DecideGate(s, f, held, readback.content, readback.dispatches, keeps);
      } else {
        var (pool, crop) := Acquire(s.pool, readback.crop.value.pick);
        SameGate(s, s.(pool := pool));
        DecideGate(s.(pool := pool), f, held + {crop}, readback.content, readback.dispatches, keeps);
      }
    } else {
      SameGate(s, MappedStep(s, f, readback, keeps));
    }
  }

  lemma InferredGate(s: State, f: int, inference: Inference, keeps: set<int>)
    requires Gate(s) && f in s.jobs && s.jobs[f].phase.Inferring?
    ensures Gate(InferredStep(s, f, inference, keeps))
  {
    hide Newest, ReleaseSlot;
    var t := InferredStep(s, f, inference, keeps);
    if t.log.shown == s.log.shown {
      NewestIs(s, t);
      SameGate(s, t);
    } else {
      PaintedGate(s, t, f);
    }
  }

  /** The frame painted is the newest one shown, and its content the one observed. */
  lemma PaintedGate(s: State, t: State, f: int)
    requires Gate(s) && f in s.jobs && s.jobs[f].phase.Inferring?
    requires t.still == s.still && t.log.seen == s.log.seen && t.log.run == s.log.run && t.log.started == s.log.started
    requires t.log.shown == s.log.shown + [f] && t.picture == Some(s.jobs[f].phase.content)
    requires f in t.jobs && t.jobs == s.jobs[f := t.jobs[f]] && t.jobs[f].phase.Done?
    ensures Gate(t)
  {
  }

  lemma NewestIs(s: State, t: State)
    requires t.log.shown == s.log.shown && t.log.seen == s.log.seen
    ensures Newest(t.log) == Newest(s.log)
  {
  }

  lemma GateKept(s: State, e: Event)
    requires Ownership(s) && Admission(s) && Gate(s)
    ensures Gate(Step(s, e))
  {
    hide Ownership, EnterStep, MappedStep, InferredStep, AfterSubmitStep, PassStep, WorkDoneStep, CompletedStep,
      Newest, Fates;
    var t := Step(s, e);
    match e
    case Pass(encodes) =>
      PassTouches(s, encodes);
      SameGate(s, t);
    case AfterSubmit => AfterSubmitGate(s);
    case WorkDone(f, ok) => if f in s.jobs && s.jobs[f].phase.Copying? { WorkDoneGate(s, f, ok); }
    case Enter(f, first, second, keeps) =>
      if f in s.jobs && s.jobs[f].phase.Queued? { EnterGate(s, f, first, second, keeps); }
    case Mapped(f, readback, keeps) =>
      if f in s.jobs && s.jobs[f].phase.Mapping? { MappedGate(s, f, readback, keeps); }
    case Inferred(f, inference, keeps) =>
      if f in s.jobs && s.jobs[f].phase.Inferring? { InferredGate(s, f, inference, keeps); }
    case Completed(f) => if f in s.jobs && s.jobs[f].phase.Done? { CompletedGate(s, f); }
    case Destroy => SameGate(s, t);
  }

  lemma AfterSubmitGate(s: State)
    requires Gate(s)
    ensures Gate(AfterSubmitStep(s))
  {
    hide ReleaseSlot, Newest;
    SameGate(s, AfterSubmitStep(s));
  }

  lemma WorkDoneGate(s: State, f: int, ok: bool)
    requires Admission(s) && Gate(s) && f in s.jobs && s.jobs[f].phase.Copying?
    ensures Gate(WorkDoneStep(s, f, ok))
  {
    hide ReleaseSlot, Newest, Fates;
    SameGate(s, WorkDoneStep(s, f, ok));
  }

  lemma EnterGate(s: State, f: int, first: Grab, second: Grab, keeps: set<int>)
    requires Gate(s) && f in s.jobs && s.jobs[f].phase.Queued?
    ensures Gate(EnterStep(s, f, first, second, keeps))
  {
    hide ReleaseSlot, Newest, StaleSkips;
    SameGate(s, EnterStep(s, f, first, second, keeps));
  }

  lemma CompletedGate(s: State, f: int)
    requires Gate(s) && f in s.jobs && s.jobs[f].phase.Done?
    ensures Gate(CompletedStep(s, f))
  {
    hide Newest;
    SameGate(s, CompletedStep(s, f));
  }

  lemma {:induction false} RunGate(s: State, events: seq<Event>)
    requires Inv(s) && Gate(s)
    ensures Inv(Run(s, events)) && Gate(Run(s, events))
    decreases |events|
  {
    hide Ownership, Buffers, Steady, Step, Gate;
    if events != [] {
      AdmissionOf(s);
      OwnershipKept(s, events[0]);
      BuffersKept(s, events[0]);
      SteadyKept(s, events[0]);
      GateKept(s, events[0]);
      RunGate(Step(s, events[0]), events[1..]);
    }
  }

  lemma AdmissionOf(s: State)
    requires Steady(s)
    ensures Admission(s)
  {
  }

  /** The next step is frame `f` being held as a repeat of `content`. */
  ghost predicate Holds(s: State, f: int, content: int) {
    f in s.jobs && s.jobs[f].phase.Mapping? && !s.destroyed && HoldsRepeat(s, content)
  }

  /** Some frame of the current run has been shown. */
  ghost predicate RunShown(log: Log) { exists g :: g in log.run && g in log.shown }

  /** Frames have been observed in their order so far: none outside the run is newer than one in it. */
  ghost predicate ObservedInOrder(log: Log) {
    forall g, h :: g in log.seen && g !in log.run && h in log.run ==> g < h
  }

  /** No frame before the run had this content. */
  ghost predicate FirstRunOf(log: Log, content: int) {
    forall g :: g in log.seen && g !in log.run ==> log.seen[g] != content
  }

  /** On every run, whatever the interleaving: a hold finds its picture on the canvas exactly if the newest
      frame shown is of the current run, or is an older observation of the same content. Where frames have
      been observed in order and the content is new, that is: exactly if some frame of the run was shown. */
  lemma HoldFindsPictureIff(count: nat, depth: nat, events: seq<Event>, f: int, content: int)
    requires 0 < count && Holds(Run(Start(count, depth), events), f, content)
    ensures var s := Run(Start(count, depth), events);
      && (s.picture == Some(content)
          <==> s.log.shown != [] && (Last(s.log.shown) in s.log.run
                                     || (Last(s.log.shown) in s.log.seen && s.log.seen[Last(s.log.shown)] == content)))
      && (ObservedInOrder(s.log) && FirstRunOf(s.log, content) ==> (s.picture == Some(content) <==> RunShown(s.log)))
  {
    hide Run;
    StartInv(count, depth);
    RunGate(Start(count, depth), events);
    var s := Run(Start(count, depth), events);
    HoldFinds(s, f, content);
  }

  lemma HoldFinds(s: State, f: int, content: int)
    requires Gate(s) && Presentation(s) && Holds(s, f, content)
    ensures s.picture == Some(content)
            <==> s.log.shown != [] && (Last(s.log.shown) in s.log.run
                                       || (Last(s.log.shown) in s.log.seen && s.log.seen[Last(s.log.shown)] == content))
    ensures ObservedInOrder(s.log) && FirstRunOf(s.log, content) ==> (s.picture == Some(content) <==> RunShown(s.log))
  {
    assert s.still.last == Some(content);
    if s.log.shown != [] {
      var last := Last(s.log.shown);
      assert last in s.log.shown && last in s.log.seen;
      if ObservedInOrder(s.log) && RunShown(s.log) {
        var g :| g in s.log.run && g in s.log.shown;
        assert g <= last;
      }
    }
  }

  // ---- both provisos are needed ------------------------------------------------------------------------------

  /** A frame up to where the gate decides. */
  function Approach(f: int): seq<Event> { Submission(f) + [Enter(f, Takes(0), Takes(0), {})] }

  lemma AboutToHold(s: State, content: int)
    requires Idle(s) && HoldsRepeat(s, content)
    ensures var t := Run(s, Approach(s.frames + 1));
      && Holds(t, s.frames + 1, content) && t.picture == s.picture
      && t.log.run == s.log.run && t.log.seen == s.log.seen && t.log.shown == s.log.shown
  {
    hide Step, Run;
    var f := s.frames + 1;
    var enter := Enter(f, Takes(0), Takes(0), {});
    SubmitAlone(s);
    var m := Run(s, Submission(f));
    RunAppend(s, Submission(f), [enter]);
    EnterAlone(m, f, s.slots.cursor);
    RunOne(m, enter);
  }

  lemma RunOne(s: State, e: Event)
    ensures Run(s, [e]) == Step(s, e)
  {
    assert [e][1..] == [];
  }

  lemma StartIsIdle()
    ensures Idle(Start(2, 2))
  {
  }

  /** Content that came up before: the gate is right although no frame of the run was ever shown. */
  lemma EarlierPictureServes(content: int, other: int)
    requires content != other
    ensures var s := Run(Start(2, 2), Serial(1, [(content, Result(Painted)), (other, Rejects), (content, Rejects), (content, Rejects)])
                                      + Approach(5));
      && Holds(s, 5, content) && ObservedInOrder(s.log) && !FirstRunOf(s.log, content)
      && s.picture == Some(content) && !RunShown(s.log)
  {
    hide Step, Run, Submission, Drain, Approach;
    var all := [(content, Result(Painted)), (other, Rejects), (content, Rejects), (content, Rejects)];
    var s0 := Start(2, 2);
    StartIsIdle();
    var s1 := Run(s0, Submission(1) + Drain(1, content, Result(Painted)));
    AloneIsServed(s0, content, Result(Painted));
    var s2 := Run(s1, Submission(2) + Drain(2, other, Rejects));
    AloneIsServed(s1, other, Rejects);
    var s3 := Run(s2, Submission(3) + Drain(3, content, Rejects));
    AloneIsServed(s2, content, Rejects);
    var s4 := Run(s3, Submission(4) + Drain(4, content, Rejects));
    AloneIsServed(s3, content, Rejects);
    SerialStep(s0, all);
    SerialStep(s1, all[1..]);
    SerialStep(s2, all[1..][1..]);
    SerialStep(s3, all[1..][1..][1..]);
    assert all[1..][1..][1..][1..] == [];
    RunNone(s4);
    AboutToHold(s4, content);
    RunAppend(s0, Serial(1, all), Approach(5));
    assert s4.log.run == {3, 4} && s4.log.shown == [1];
    assert 1 in s4.log.seen && s4.log.seen[1] == content;
  }

  lemma RunNone(s: State)
    ensures Run(s, []) == s
  {
  }

  /** Two frames in flight, neither drain entered. */
  ghost predicate BothQueued(s: State) {
    && s.jobs == map[1 := Job(0, Queued), 2 := Job(1, Queued)] && s.schedule.inFlight == {1, 2}
    && s.slots == Slots([true, true], 0, None) && s.frames == 2 && s.schedule.newestSeen == 2 && s.watermark == -1
    && !s.landed && !s.destroyed && s.still == Still(None, 0) && s.log.shown == []
  }

  lemma TwoSubmitted()
    ensures BothQueued(Run(Start(2, 2), Submission(1) + Submission(2)))
  {
    var s0 := Start(2, 2);
    StartIsIdle();
    SubmitAlone(s0);
    var s1 := Run(s0, Submission(1));
    assert s0.slots.busy == [false, false];
    assert s1.slots == Slots([true, false], 1, None);
    assert s1.jobs == map[1 := Job(0, Queued)];
    RunAppend(s0, Submission(1), Submission(2));
    SecondSubmitted(s1);
  }

  lemma SecondSubmitted(s: State)
    requires s.jobs == map[1 := Job(0, Queued)] && s.slots == Slots([true, false], 1, None) && s.schedule.inFlight == {1}
    requires s.frames == 1 && s.schedule.newestSeen == 1 && s.depth == 2 && s.watermark == -1
    requires !s.landed && !s.destroyed && s.still == Still(None, 0) && s.log.shown == []
    ensures BothQueued(Run(s, Submission(2)))
  {
    var s1 := Step(s, Pass(true));
    assert Candidate(2, 1, 0) == 1;
    assert s1.slots == Slots([true, true], 0, Some(Pending(1, 2)));
    var s2 := Step(s1, AfterSubmit);
    assert s2.jobs == map[1 := Job(0, Queued), 2 := Job(1, Copying)];
    var s3 := Step(s2, WorkDone(2, true));
    assert s3.jobs == map[1 := Job(0, Queued), 2 := Job(1, Queued)];
    assert s3.schedule.inFlight == {1, 2};
    RunThree(s, Pass(true), AfterSubmit, WorkDone(2, true));
  }

  lemma RunThree(s: State, e1: Event, e2: Event, e3: Event)
    ensures Run(s, [e1, e2, e3]) == Step(Step(Step(s, e1), e2), e3)
  {
    hide Step;
    var s1 := Step(s, e1);
    var s2 := Step(s1, e2);
    RunCons(s, e1, [e2, e3]);
    assert [e1, e2, e3] == [e1] + [e2, e3];
    RunCons(s1, e2, [e3]);
    assert [e2, e3] == [e2] + [e3];
    RunOne(s2, e3);
  }

  /** Both drains map, the newer frame first; both are shown, in order. */
  function Crossing(content: int, other: int): seq<Event> {
    [Enter(1, Takes(0), Takes(0), {}), Enter(2, Takes(0), Takes(0), {}),
     Mapped(2, Frame(other, None, true), {}), Mapped(1, Frame(content, None, true), {})]
    + [Inferred(1, Result(Painted), {}), Inferred(2, Result(Painted), {}), Completed(1), Completed(2)]
  }

  lemma CrossingObserves(s: State, content: int, other: int)
    requires BothQueued(s) && content != other
    ensures var t := Run(s, Crossing(content, other)[..4]);
      && t.jobs.Keys == {1, 2} && t.jobs[1].slot == 0 && t.jobs[2].slot == 1
      && t.jobs[1].phase.Inferring? && t.jobs[1].phase.content == content
      && t.jobs[2].phase.Inferring? && t.jobs[2].phase.content == other
      && t.slots == s.slots && t.schedule == s.schedule && t.frames == 2 && t.watermark == -1 && !t.destroyed
      && t.still == Still(Some(content), 1) && t.log.shown == [] && t.log.run == {1}
  {
    var enter1, enter2 := Enter(1, Takes(0), Takes(0), {}), Enter(2, Takes(0), Takes(0), {});
    var map2, map1 := Mapped(2, Frame(other, None, true), {}), Mapped(1, Frame(content, None, true), {});
    var s1 := Step(s, enter1);
    assert s1.jobs == s.jobs[1 := s1.jobs[1]] && s1.jobs[1].phase.Mapping?;
    var s2 := Step(s1, enter2);
    assert s2.jobs == s1.jobs[2 := s2.jobs[2]] && s2.jobs[2].phase.Mapping?;
    var s3 := Step(s2, map2);
    assert s3.still == Still(Some(other), 1) && s3.jobs == s2.jobs[2 := s3.jobs[2]] && s3.jobs[2].phase.Inferring?;
    var s4 := Step(s3, map1);
    assert s4.still == Still(Some(content), 1) && s4.jobs == s3.jobs[1 := s4.jobs[1]] && s4.jobs[1].phase.Inferring?;
    assert Crossing(content, other)[..4] == [enter1, enter2, map2, map1];
    RunFour(s, enter1, enter2, map2, map1);
  }

  lemma CrossingShows(s: State, content: int, other: int)
    requires s.jobs.Keys == {1, 2} && s.jobs[1].slot == 0 && s.jobs[2].slot == 1
    requires s.jobs[1].phase.Inferring? && s.jobs[1].phase.content == content
    requires s.jobs[2].phase.Inferring? && s.jobs[2].phase.content == other
    requires s.slots == Slots([true, true], 0, None) && s.schedule.inFlight == {1, 2} && s.schedule.newestSeen == 2
    requires s.frames == 2 && s.watermark == -1 && !s.destroyed && s.log.shown == []
    ensures var t := Run(s, Crossing(content, other)[4..]);
      && Idle(t) && t.landed && t.frames == 2 && t.picture == Some(other) && t.log.shown == [1, 2]
      && t.still == s.still && t.log.run == s.log.run
  {
    var show1, show2 := Inferred(1, Result(Painted), {}), Inferred(2, Result(Painted), {});
    var s1 := Step(s, show1);
    assert s1.slots.busy == [false, true] && s1.jobs == s.jobs[1 := Job(0, Done)];
    var s2 := Step(s1, show2);
    assert s2.slots.busy == [false, false] && s2.jobs == s1.jobs[2 := Job(1, Done)];
    var s3 := Step(s2, Completed(1));
    assert s3.jobs == map[2 := Job(1, Done)];
    var s4 := Step(s3, Completed(2));
    assert s4.jobs == map[] && s4.schedule.inFlight == {};
    assert Crossing(content, other)[4..] == [show1, show2, Completed(1), Completed(2)];
    RunFour(s, show1, show2, Completed(1), Completed(2));
  }

  /** Observations out of order: a frame of the run was shown, and a newer frame that had been observed
      before the run has painted over it. */
  lemma OvertakenRunIsHeld(content: int, other: int)
    requires content != other
    ensures var s := Run(Start(2, 2), Submission(1) + Submission(2) + Crossing(content, other)
                                      + Serial(3, [(content, Rejects)]) + Approach(4));
      && Holds(s, 4, content) && RunShown(s.log) && !ObservedInOrder(s.log) && s.picture != Some(content)
  {
    hide Step, Run, Submission, Drain, Approach, Crossing;
    var s0, two, cross, third := Start(2, 2), Submission(1) + Submission(2), Crossing(content, other), Serial(3, [(content, Rejects)]);
    TwoSubmitted();
    var s1 := Run(s0, two);
    RunAppend(s0, two, cross);
    assert cross[..4] + cross[4..] == cross by { CrossingLength(content, other); }
    RunAppend(s1, cross[..4], cross[4..]);
    CrossingObserves(s1, content, other);
    var s2 := Run(s1, cross[..4]);
    CrossingShows(s2, content, other);
    var s3 := Run(s2, cross[4..]);
    AloneIsServed(s3, content, Rejects);
    SerialStep(s3, [(content, Rejects)]);
    var s4 := Run(s3, Submission(3) + Drain(3, content, Rejects));
    assert [(content, Rejects)][1..] == [];
    RunNone(s4);
    RunAppend(s0, two + cross, third);
    AboutToHold(s4, content);
    RunAppend(s0, two + cross + third, Approach(4));
    var s5 := Run(s4, Approach(4));
    assert 1 in s5.log.run && 1 in s5.log.shown;
    OutOfOrder(s0, two + cross + third + Approach(4), content);
  }

  lemma CrossingLength(content: int, other: int)
    ensures |Crossing(content, other)| == 8
  {
  }

  /** Two shown frames with the picture of the newer one outside the run mean just that. */
  lemma OutOfOrder(s0: State, events: seq<Event>, content: int)
    requires s0 == Start(2, 2)
    requires var s := Run(s0, events);
      s.log.shown == [1, 2] && 1 in s.log.run && s.picture != Some(content) && s.still.last == Some(content)
    ensures !ObservedInOrder(Run(s0, events).log)
  {
    hide Inv, Gate, Run, ObservedInOrder;
    StartInv(2, 2);
    StartGate(2, 2);
    RunGate(s0, events);
    ShownOutOfOrder(Run(s0, events), content);
  }

  lemma StartGate(count: nat, depth: nat)
    requires 0 < count
    ensures Gate(Start(count, depth))
  {
  }

  lemma ShownOutOfOrder(s: State, content: int)
    requires Gate(s) && s.log.shown == [1, 2] && 1 in s.log.run && s.picture != Some(content) && s.still.last == Some(content)
    ensures !ObservedInOrder(s.log)
  {
    var log := s.log;
    assert 2 in log.shown && 2 in log.seen && Last(log.shown) == 2;
  }
}

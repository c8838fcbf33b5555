/** The frame pipeline as a state machine: src/core/realesrgan-pipeline.ts (pass, afterSubmit,
    destroy) around src/core/realesrgan-drain-processor.ts. One step is the code one callback runs
    between two awaits; any event may come next, in any order. */
module FramePipeline {
  import opened Wrappers
  import opened StagingSlots
  import opened FrameJobs

  const STALE_SKIP_BEHIND := 6
  const HOLD_AFTER := 3

  // ---- state -----------------------------------------------------------------------------------

  /** What a frame that left afterSubmit is waiting for. */
  datatype Phase =
    | Copying                                 // its copy on the GPU
    | Queued                                  // its drain's turn
    | Mapping(held: set<int>)                 // mapAsync
    | Inferring(held: set<int>, content: int) // the runner or session
    | Done                                    // its completion callback; the drain has returned

  datatype Job = Job(slot: nat, phase: Phase)

  /** ArrayBuffers by identity: those pooled, and how often each was acquired and released. */
  datatype Pool = Pool(free: set<int>, next: int, lent: multiset<int>, back: multiset<int>)

  datatype Still = Still(last: Option<int>, run: nat)

  /** What happened so far. Of the started frames, `stale` were skipped as overtaken, `dropped`
      finished behind a newer one, and `lost` failed, were held as repeats, were cut off by
      destroy, or were granted but never painted. `seen` are the contents the still-frame gate
      observed, `run` the frames since it last saw another content. */
  datatype Log = Log(granted: set<int>, freed: multiset<int>, started: set<int>,
                     shown: seq<int>, stale: set<int>, dropped: set<int>, lost: set<int>,
                     seen: map<int, int>, run: set<int>)

  datatype State = State(
    slots: Slots, depth: nat, frames: int, jobs: map<int, Job>, schedule: Schedule, watermark: int,
    landed: bool, destroyed: bool, still: Still, picture: Option<int>, pool: Pool, log: Log)

  function Start(count: nat, depth: nat): State {
    State(Slots(seq(count, _ => false), 0, None), depth, 0, map[], IDLE, -1, false, false, Still(None, 0), None,
          Pool({}, 0, multiset{}, multiset{}), Log({}, multiset{}, {}, [], {}, {}, {}, map[], {}))
  }

  // ---- events ----------------------------------------------------------------------------------

  /** One pool.acquire: a pooled buffer if `pick` is one, else a new one; or an allocation failure. */
  datatype Grab = Throws | Takes(pick: int)

  datatype Readback =
    | Fails                                                // map, copy or unpack
    | Frame(content: int, crop: Option<Grab>, dispatches: bool)

  /** What becomes of a granted result: painted, a failing write, or a crop that does not fit the
      output and is skipped without an error. */
  datatype Write = Painted | WriteFails | CropSkipped

  datatype Inference = Rejects | Result(write: Write)

  /** `keeps` are the buffers the pool's caps let it keep when the drain releases them. */
  datatype Event =
    | Pass(encodes: bool)
    | AfterSubmit
    | WorkDone(frame: int, ok: bool)
    | Enter(frame: int, first: Grab, second: Grab, keeps: set<int>)
    | Mapped(frame: int, readback: Readback, keeps: set<int>)
    | Inferred(frame: int, inference: Inference, keeps: set<int>)
    | Completed(frame: int)
    | Destroy

  // ---- steps -----------------------------------------------------------------------------------

  function Freed(s: State, frame: int): State { s.(log := s.log.(freed := s.log.freed + multiset{frame})) }

  function Skipped(s: State, frame: int): State { s.(schedule := NoteSkipped(s.schedule, frame)) }

  /** A frame the renderer dropped between pass and submit still holds its slot: take it back. */
  function Reclaim(s: State): State {
    var s1 := s.(slots := ReleasePending(s.slots));
    if s.slots.pending.None? then s1
    else Skipped(Freed(s1, s.slots.pending.value.frame), s.slots.pending.value.frame)
  }

  function PassStep(s: State, encodes: bool): State {
    if s.destroyed then s else
    var frame := s.frames + 1;
    var t := Reclaim(s).(frames := frame);
    var (slots, claim) := ClaimSlot(t.slots);
    match claim
    case None => Skipped(t, frame)
    case Some(k) =>
      var u := t.(slots := slots, log := t.log.(granted := t.log.granted + {frame}));
      if encodes then u.(slots := MarkPending(u.slots, k, frame))
      else Skipped(Freed(u.(slots := ReleaseSlot(u.slots, k)), frame), frame)
  }

  function AfterSubmitStep(s: State): State {
    var taken := s.slots.pending;
    var s1 := s.(slots := TakePending(s.slots));
    match taken
    case None => s1
    case Some(p) =>
      if s.destroyed then Freed(s1.(slots := ReleaseSlot(s1.slots, p.slot)), p.frame)
      else s1.(jobs := s1.jobs[p.frame := Job(p.slot, Copying)])
  }

  function WorkDoneStep(s: State, f: int, ok: bool): State
    requires f in s.jobs
  {
    if ok && ShouldProcess(s.schedule, f, s.depth)
    then s.(schedule := MarkStarted(s.schedule, f), jobs := s.jobs[f := Job(s.jobs[f].slot, Queued)],
            log := s.log.(started := s.log.started + {f}))
    else
      Skipped(Freed(s.(slots := ReleaseSlot(s.slots, s.jobs[f].slot), jobs := s.jobs - {f}), f), f)
  }

  function Acquire(p: Pool, pick: int): (Pool, int) {
    if pick in p.free then (p.(free := p.free - {pick}, lent := p.lent + multiset{pick}), pick)
    else (p.(next := p.next + 1, lent := p.lent + multiset{p.next}), p.next)
  }

  /** The drain's finally block: every buffer it holds, then the slot. */
  function EndDrain(s: State, f: int, held: set<int>, keeps: set<int>): State
    requires f in s.jobs
  {
    var slot := s.jobs[f].slot;
    Freed(s.(pool := s.pool.(free := s.pool.free + held * keeps, back := s.pool.back + multiset(held)),
             slots := ReleaseSlot(s.slots, slot), jobs := s.jobs[f := Job(slot, Done)]), f)
  }

  function Lose(s: State, f: int): State { s.(log := s.log.(lost := s.log.lost + {f})) }

  function Drop(s: State, f: int): State { s.(log := s.log.(dropped := s.log.dropped + {f})) }

  function Bypass(s: State, f: int): State { s.(log := s.log.(stale := s.log.stale + {f})) }

  ghost predicate StaleSkips(s: State, f: int) {
    s.landed && !s.destroyed && TrailsBy(s.schedule.inFlight, f, STALE_SKIP_BEHIND)
  }

  ghost function EnterStep(s: State, f: int, first: Grab, second: Grab, keeps: set<int>): State
    requires f in s.jobs
  {
    if StaleSkips(s, f) then Bypass(EndDrain(s, f, {}, keeps), f) else
    match first
    case Throws => Lose(EndDrain(s, f, {}, keeps), f)
    case Takes(p) =>
      var (pool1, readback) := Acquire(s.pool, p);
      match second
      case Throws => Lose(EndDrain(s.(pool := pool1), f, {readback}, keeps), f)
      case Takes(q) =>
        var (pool2, input) := Acquire(pool1, q);
        s.(pool := pool2, jobs := s.jobs[f := Job(s.jobs[f].slot, Mapping({readback, input}))])
  }

  function Observe(t: Still, content: int): Still {
    if t.last == Some(content) then t.(run := t.run + 1) else Still(Some(content), 1)
  }

  /** The gate's observation of frame `f`. */
  function Observed(s: State, f: int, content: int): State {
    s.(still := Observe(s.still, content),
       log := s.log.(seen := s.log.seen[f := content],
                     run := if s.still.last == Some(content) then s.log.run + {f} else {f}))
  }

  /** The gate holds the presented result instead of inferring this content. */
  predicate HoldsRepeat(s: State, content: int) { s.landed && Observe(s.still, content).run >= HOLD_AFTER }

  /** Behind the crop slice: hold, stale-skip, dispatch. */
  ghost function DecideStep(s: State, f: int, held: set<int>, content: int, dispatches: bool, keeps: set<int>): State
    requires f in s.jobs
  {
    var t := Observed(s, f, content);
    if t.landed && t.still.run >= HOLD_AFTER then Lose(EndDrain(t, f, held, keeps), f)
    else if StaleSkips(t, f) then Bypass(EndDrain(t, f, held, keeps), f)
    else if !dispatches then Lose(EndDrain(t, f, held, keeps), f)
    else t.(jobs := t.jobs[f := Job(t.jobs[f].slot, Inferring(held, content))])
  }

  ghost function MappedStep(s: State, f: int, readback: Readback, keeps: set<int>): State
    requires f in s.jobs && s.jobs[f].phase.Mapping?
  {
    var held := s.jobs[f].phase.held;
    if readback.Fails? || s.destroyed then Lose(EndDrain(s, f, held, keeps), f) else
    match readback.crop
    case None => DecideStep(s, f, held, readback.content, readback.dispatches, keeps)
    case Some(Throws) => Lose(EndDrain(s, f, held, keeps), f)
    case Some(Takes(p)) =>
      var (pool, crop) := Acquire(s.pool, p);
      DecideStep(s.(pool := pool), f, held + {crop}, readback.content, readback.dispatches, keeps)
  }

  function InferredStep(s: State, f: int, inference: Inference, keeps: set<int>): State
    requires f in s.jobs && s.jobs[f].phase.Inferring?
  {
    var held := s.jobs[f].phase.held;
    if inference.Rejects? || s.destroyed then Lose(EndDrain(s, f, held, keeps), f)
    else if f <= s.watermark then Drop(EndDrain(s, f, held, keeps), f)
    else
      var t := EndDrain(s, f, held, keeps).(watermark := f);
      match inference.write
      case Painted =>
        t.(landed := true, picture := Some(s.jobs[f].phase.content), log := t.log.(shown := t.log.shown + [f]))
      case WriteFails => Lose(t, f)
      case CropSkipped => Lose(t, f).(landed := true)
  }

  function CompletedStep(s: State, f: int): State
    requires f in s.jobs
  {
    s.(schedule := MarkCompleted(s.schedule, f), jobs := s.jobs - {f})
  }

  function DestroyStep(s: State): State {
    if s.destroyed then s
    else s.(destroyed := true, schedule := IDLE, watermark := -1, pool := s.pool.(free := {}))
  }

  /** An event nothing is waiting for leaves the state as it is. */
  ghost function Step(s: State, e: Event): State {
    match e
    case Pass(encodes) => PassStep(s, encodes)
    case AfterSubmit => AfterSubmitStep(s)
    case WorkDone(f, ok) => if f in s.jobs && s.jobs[f].phase.Copying? then WorkDoneStep(s, f, ok) else s
    case Enter(f, first, second, keeps) =>
      if f in s.jobs && s.jobs[f].phase.Queued? then EnterStep(s, f, first, second, keeps) else s
    case Mapped(f, readback, keeps) =>
      if f in s.jobs && s.jobs[f].phase.Mapping? then MappedStep(s, f, readback, keeps) else s
    case Inferred(f, inference, keeps) =>
      if f in s.jobs && s.jobs[f].phase.Inferring? then InferredStep(s, f, inference, keeps) else s
    case Completed(f) => if f in s.jobs && s.jobs[f].phase.Done? then CompletedStep(s, f) else s
    case Destroy => DestroyStep(s)
  }

  ghost function Run(s: State, events: seq<Event>): State
    decreases |events|
  {
    if events == [] then s else Run(Step(s, events[0]), events[1..])
  }
}

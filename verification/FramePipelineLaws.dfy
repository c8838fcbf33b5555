/** What every run of the frame pipeline keeps. */
module FramePipelineLaws {
  import opened Wrappers
  import opened StagingSlots
  import opened FrameJobs
  import opened FramePipeline

  // ---- slots: linear ownership ----------------------------------------------------------------

  /** Who holds a slot: the pending claim and every frame whose drain has not returned. */
  ghost function Owners(s: State): map<int, nat> {
    var live := map f | f in s.jobs && !s.jobs[f].phase.Done? :: s.jobs[f].slot;
    if s.slots.pending.None? then live else live[s.slots.pending.value.frame := s.slots.pending.value.slot]
  }

  /** Busy slots and owners correspond one to one. */
  ghost predicate Linear(busy: seq<bool>, owners: map<int, nat>) {
    && (forall f :: f in owners ==> owners[f] < |busy| && busy[owners[f]])
    && (forall f, g :: f in owners && g in owners && owners[f] == owners[g] ==> f == g)
    && (forall i :: 0 <= i < |busy| && busy[i] ==> exists f :: f in owners && owners[f] == i)
  }

  lemma GrantKeeps(busy: seq<bool>, owners: map<int, nat>, f: int, k: nat)
    requires Linear(busy, owners) && f !in owners && k < |busy| && !busy[k]
    ensures Linear(busy[k := true], owners[f := k])
  {
    var b, o := busy[k := true], owners[f := k];
    forall i | 0 <= i < |b| && b[i]
      ensures exists g :: g in o && o[g] == i
    {
      if i == k {
        assert o[f] == i;
      } else {
        var g :| g in owners && owners[g] == i;
        assert o[g] == i;
      }
    }
  }

  lemma DropKeeps(busy: seq<bool>, owners: map<int, nat>, f: int)
    requires Linear(busy, owners) && f in owners
    ensures Linear(busy[owners[f] := false], owners - {f})
  {
    var b, o := busy[owners[f] := false], owners - {f};
    forall i | 0 <= i < |b| && b[i]
      ensures exists g :: g in o && o[g] == i
    {
      var g :| g in owners && owners[g] == i;
      assert o[g] == i;
    }
  }

  /** One grant per frame; one release per grant that is over, none for one that is not. */
  ghost predicate Accounted(log: Log, frames: int, owners: map<int, nat>) {
    && 0 <= frames && owners.Keys <= log.granted
    && (forall f :: f in log.granted ==> 1 <= f <= frames)
    && (forall f :: log.freed[f] == if f in log.granted && f !in owners then 1 else 0)
  }

  ghost predicate Ownership(s: State) {
    && s.slots.cursor < |s.slots.busy|
    && Linear(s.slots.busy, Owners(s))
    && Accounted(s.log, s.frames, Owners(s))
    && s.jobs.Keys <= s.log.granted
    && (s.slots.pending.Some? ==> s.slots.pending.value.frame !in s.jobs)
  }

  lemma ReclaimKeeps(s: State)
    requires Ownership(s)
    ensures Ownership(Reclaim(s)) && Reclaim(s).slots.pending.None?
    ensures Reclaim(s).frames == s.frames && Reclaim(s).log.granted == s.log.granted
  {
    var t := Reclaim(s);
    if s.slots.pending.Some? {
      var p := s.slots.pending.value;
      DropKeeps(s.slots.busy, Owners(s), p.frame);
      assert Owners(t) == Owners(s) - {p.frame};
    } else {
      assert Owners(t) == Owners(s);
    }
  }

  lemma PassKeeps(s: State, encodes: bool)
    requires Ownership(s)
    ensures Ownership(PassStep(s, encodes))
  {
    var s' := PassStep(s, encodes);
    if !s.destroyed {
      ReclaimKeeps(s);
      var t := Reclaim(s);
      var (slots, claim) := ClaimSlot(t.slots);
      if claim.None? {
        assert Owners(s') == Owners(t);
      } else {
        GrantKeeps(t.slots.busy, Owners(t), s'.frames, claim.value);
        if encodes {
          assert Owners(s') == Owners(t)[s'.frames := claim.value];
        } else {
          assert Owners(s') == Owners(t);
          assert s'.slots.busy == t.slots.busy;
        }
      }
    }
  }

  lemma AfterSubmitKeeps(s: State)
    requires Ownership(s)
    ensures Ownership(AfterSubmitStep(s))
  {
    var s' := AfterSubmitStep(s);
    if s.slots.pending.None? || !s.destroyed {
      assert Owners(s') == Owners(s);
    } else {
      var f := s.slots.pending.value.frame;
      DropKeeps(s.slots.busy, Owners(s), f);
      assert Owners(s') == Owners(s) - {f};
    }
  }

  lemma WorkDoneKeeps(s: State, f: int, ok: bool)
    requires Ownership(s) && f in s.jobs && s.jobs[f].phase.Copying?
    ensures Ownership(WorkDoneStep(s, f, ok))
  {
    var s' := WorkDoneStep(s, f, ok);
    if ok && ShouldProcess(s.schedule, f, s.depth) {
      hide Ownership;
      MovesOn(s, s', f);
    } else {
      GivesUp(s, s', f);
    }
  }

  /** A frame leaves the pipeline and its slot. */
  lemma GivesUp(s: State, t: State, f: int)
    requires Ownership(s) && f in s.jobs && !s.jobs[f].phase.Done?
    requires t.jobs == s.jobs - {f} && t.frames == s.frames && t.slots == ReleaseSlot(s.slots, s.jobs[f].slot)
    requires t.log.granted == s.log.granted && t.log.freed == s.log.freed + multiset{f}
    ensures Ownership(t)
  {
    DropKeeps(s.slots.busy, Owners(s), f);
    assert Owners(t) == Owners(s) - {f};
  }

  lemma EndDrainKeeps(s: State, f: int, held: set<int>, keeps: set<int>)
    requires Ownership(s) && f in s.jobs && !s.jobs[f].phase.Done?
    ensures Ownership(EndDrain(s, f, held, keeps))
  {
    var s' := EndDrain(s, f, held, keeps);
    DropKeeps(s.slots.busy, Owners(s), f);
    assert Owners(s') == Owners(s) - {f};
  }

  ghost predicate SameHolders(s: State, t: State) {
    t.slots == s.slots && t.frames == s.frames && t.log.granted == s.log.granted && t.log.freed == s.log.freed
  }

  /** Everything the ownership of slots depends on is left alone. */
  ghost predicate SameOwnership(s: State, t: State) {
    SameHolders(s, t) && Owners(t) == Owners(s) && t.jobs.Keys == s.jobs.Keys
  }

  lemma SameKeeps(s: State, t: State)
    requires Ownership(s) && SameOwnership(s, t)
    ensures Ownership(t)
  {
  }

  lemma EnterKeeps(s: State, f: int, first: Grab, second: Grab, keeps: set<int>)
    requires Ownership(s) && f in s.jobs && s.jobs[f].phase.Queued?
    ensures Ownership(EnterStep(s, f, first, second, keeps))
  {
    hide Ownership, StaleSkips, ReleaseSlot;
    var s' := EnterStep(s, f, first, second, keeps);
    if s'.jobs[f].phase.Done? {
      EndsDrain(s, s', f, keeps);
    } else {
      MovesOn(s, s', f);
    }
  }

  lemma EndsDrain(s: State, t: State, f: int, keeps: set<int>)
    requires Ownership(s) && f in s.jobs && !s.jobs[f].phase.Done?
    requires SameHolders(EndDrain(s, f, {}, keeps), t) && t.jobs == EndDrain(s, f, {}, keeps).jobs
    ensures Ownership(t)
  {
    EndDrainKeeps(s, f, {}, keeps);
    SameKeeps(EndDrain(s, f, {}, keeps), t);
  }

  /** A frame goes from one phase of its drain to another. */
  lemma MovesOn(s: State, t: State, f: int)
    requires Ownership(s) && SameHolders(s, t) && f in s.jobs && !s.jobs[f].phase.Done?
    requires f in t.jobs && t.jobs == s.jobs[f := Job(s.jobs[f].slot, t.jobs[f].phase)] && !t.jobs[f].phase.Done?
    ensures Ownership(t)
  {
    assert Owners(t) == Owners(s);
    SameKeeps(s, t);
  }

  lemma DecideKeeps(s: State, f: int, held: set<int>, content: int, dispatches: bool, keeps: set<int>)
    requires Ownership(s) && f in s.jobs && !s.jobs[f].phase.Done?
    ensures Ownership(DecideStep(s, f, held, content, dispatches, keeps))
  {
    hide Ownership, StaleSkips, ReleaseSlot, Observe;
    var t := DecideStep(s, f, held, content, dispatches, keeps);
    if t.jobs[f].phase.Done? {
      EndsDrain(s, t, f, keeps);
    } else {
      MovesOn(s, t, f);
    }
  }

  lemma MappedKeeps(s: State, f: int, readback: Readback, keeps: set<int>)
    requires Ownership(s) && f in s.jobs && s.jobs[f].phase.Mapping?
    ensures Ownership(MappedStep(s, f, readback, keeps))
  {
    var held := s.jobs[f].phase.held;
    if readback.Frame? && !s.destroyed && readback.crop != Some(Throws) {
      if readback.crop.None? {
        DecideKeeps(s, f, held, readback.content, readback.dispatches, keeps);
      } else {
        var (pool, crop) := Acquire(s.pool, readback.crop.value.pick);
        SameKeeps(s, s.(pool := pool));
        DecideKeeps(s.(pool := pool), f, held + {crop}, readback.content, readback.dispatches, keeps);
      }
    } else {
      EndsDrain(s, MappedStep(s, f, readback, keeps), f, keeps);
    }
  }

  lemma OwnershipKept(s: State, e: Event)
    requires Ownership(s)
    ensures Ownership(Step(s, e))
  {
    hide Ownership, PassStep, AfterSubmitStep, WorkDoneStep, EnterStep, MappedStep, InferredStep, CompletedStep, DestroyStep;
    match e
    case Pass(encodes) => PassKeeps(s, encodes);
    case AfterSubmit => AfterSubmitKeeps(s);
    case WorkDone(f, ok) => if f in s.jobs && s.jobs[f].phase.Copying? { WorkDoneKeeps(s, f, ok); }
    case Enter(f, first, second, keeps) =>
      if f in s.jobs && s.jobs[f].phase.Queued? { EnterKeeps(s, f, first, second, keeps); }
    case Mapped(f, readback, keeps) =>
      if f in s.jobs && s.jobs[f].phase.Mapping? { MappedKeeps(s, f, readback, keeps); }
    case Inferred(f, inference, keeps) =>
      if f in s.jobs && s.jobs[f].phase.Inferring? { InferredKeeps(s, f, inference, keeps); }
    case Completed(f) => if f in s.jobs && s.jobs[f].phase.Done? { CompletedKeeps(s, f); }
    case Destroy => DestroyKeeps(s);
  }

  lemma InferredKeeps(s: State, f: int, inference: Inference, keeps: set<int>)
    requires Ownership(s) && f in s.jobs && s.jobs[f].phase.Inferring?
    ensures Ownership(InferredStep(s, f, inference, keeps))
  {
    hide Ownership;
    EndsDrain(s, InferredStep(s, f, inference, keeps), f, keeps);
  }

  lemma DestroyKeeps(s: State)
    requires Ownership(s)
    ensures Ownership(DestroyStep(s))
  {
    hide Ownership;
    SameKeeps(s, DestroyStep(s));
  }

  lemma CompletedKeeps(s: State, f: int)
    requires Ownership(s) && f in s.jobs && s.jobs[f].phase.Done?
    ensures Ownership(CompletedStep(s, f))
  {
    assert Owners(CompletedStep(s, f)) == Owners(s);
  }

  // ---- pooled buffers: acquired and released once each --------------------------------------------

  function Held(p: Phase): set<int> {
    match p
    case Mapping(held) => held
    case Inferring(held, _) => held
    case _ => {}
  }

  ghost function Holdings(s: State): map<int, set<int>> { map f | f in s.jobs :: Held(s.jobs[f].phase) }

  ghost predicate HeldBySome(h: map<int, set<int>>, b: int) { exists f :: f in h && b in h[f] }

  /** No buffer is in two drains or in a drain and the pool, and the acquisitions of each
      exceed its releases by one exactly while a drain has it. */
  ghost predicate Balanced(p: Pool, h: map<int, set<int>>) {
    && (forall f, g :: f in h && g in h && f != g ==> h[f] !! h[g])
    && (forall f :: f in h ==> h[f] !! p.free)
    && (forall b :: p.lent[b] == p.back[b] + if HeldBySome(h, b) then 1 else 0)
    && (forall b :: b in p.lent || b in p.free ==> b < p.next)
  }

  lemma TakeKeeps(p: Pool, h: map<int, set<int>>, f: int, pick: int)
    requires Balanced(p, h) && f in h
    ensures var (q, b) := Acquire(p, pick); Balanced(q, h[f := h[f] + {b}]) && b !in h[f]
  {
    var (q, b) := Acquire(p, pick);
    var k := h[f := h[f] + {b}];
    assert !HeldBySome(h, b) by {
      if b in p.free {
        assert forall g :: g in h ==> h[g] !! p.free;
      } else {
        assert p.lent[b] == 0;
      }
    }
    forall c
      ensures HeldBySome(k, c) <==> HeldBySome(h, c) || c == b
    {
      if c == b { assert b in k[f]; }
      if HeldBySome(h, c) {
        var g :| g in h && c in h[g];
        assert c in k[g];
      }
    }
    forall g, g' | g in k && g' in k && g != g'
      ensures k[g] !! k[g']
    {
      assert h[g] !! h[g'];
      assert b !in h[g] && b !in h[g'];
    }
  }

  lemma GiveKeeps(p: Pool, h: map<int, set<int>>, f: int, keeps: set<int>)
    requires Balanced(p, h) && f in h
    ensures Balanced(p.(free := p.free + h[f] * keeps, back := p.back + multiset(h[f])), h[f := {}])
  {
    var k := h[f := {}];
    forall c
      ensures HeldBySome(k, c) <==> HeldBySome(h, c) && c !in h[f]
    {
      if HeldBySome(h, c) && c !in h[f] {
        var g :| g in h && c in h[g];
        assert c in k[g];
      }
      if HeldBySome(k, c) {
        var g :| g in k && c in k[g];
        assert c in h[g] && h[g] !! h[f];
      }
    }
    forall c
      ensures c in h[f] ==> HeldBySome(h, c) && c < p.next
    {
      if c in h[f] {
        assert HeldBySome(h, c);
        assert p.lent[c] > 0;
      }
    }
  }

  lemma EmptyKeeps(p: Pool, h: map<int, set<int>>, k: map<int, set<int>>)
    requires Balanced(p, h)
    requires forall f :: f in h ==> h[f] == (if f in k then k[f] else {})
    requires forall f :: f in k ==> k[f] == (if f in h then h[f] else {})
    ensures Balanced(p, k)
  {
    forall b
      ensures HeldBySome(k, b) <==> HeldBySome(h, b)
    {
      if HeldBySome(k, b) { var f :| f in k && b in k[f]; assert f in h && b in h[f]; }
      if HeldBySome(h, b) { var f :| f in h && b in h[f]; assert f in k && b in k[f]; }
    }
  }

  ghost predicate Buffers(s: State) { Balanced(s.pool, Holdings(s)) }

  lemma EndDrainReturns(s: State, f: int, held: set<int>, keeps: set<int>)
    requires f in s.jobs && Balanced(s.pool, Holdings(s)[f := held])
    ensures Buffers(EndDrain(s, f, held, keeps))
  {
    var h := Holdings(s)[f := held];
    GiveKeeps(s.pool, h, f, keeps);
    assert Holdings(EndDrain(s, f, held, keeps)) == h[f := {}];
  }

  lemma EnterBuffers(s: State, f: int, first: Grab, second: Grab, keeps: set<int>)
    requires Buffers(s) && f in s.jobs && s.jobs[f].phase.Queued?
    ensures Buffers(EnterStep(s, f, first, second, keeps))
  {
    hide Balanced, StaleSkips;
    var s' := EnterStep(s, f, first, second, keeps);
    var h := Holdings(s);
    assert h[f := {}] == h;
    if StaleSkips(s, f) || first.Throws? {
      EndDrainReturns(s, f, {}, keeps);
    } else {
      TakeKeeps(s.pool, h, f, first.pick);
      var (pool1, readback) := Acquire(s.pool, first.pick);
      var s1 := s.(pool := pool1);
      assert h[f] + {readback} == {readback};
      if second.Throws? {
        assert Holdings(s1) == h;
        EndDrainReturns(s1, f, {readback}, keeps);
      } else {
        var h1 := h[f := {readback}];
        TakeKeeps(pool1, h1, f, second.pick);
        var (pool2, input) := Acquire(pool1, second.pick);
        assert h1[f] + {input} == {readback, input};
        assert Holdings(s') == h1[f := {readback, input}];
      }
    }
  }

  lemma DecideBuffers(s: State, f: int, held: set<int>, content: int, dispatches: bool, keeps: set<int>)
    requires f in s.jobs && Balanced(s.pool, Holdings(s)[f := held])
    ensures Buffers(DecideStep(s, f, held, content, dispatches, keeps))
  {
    hide Balanced, StaleSkips;
    var t := Observed(s, f, content);
    assert Holdings(t) == Holdings(s);
    EndDrainReturns(t, f, held, keeps);
    var u := DecideStep(s, f, held, content, dispatches, keeps);
    if u.jobs[f].phase.Inferring? {
      assert Holdings(u) == Holdings(s)[f := held];
    }
  }

  lemma MappedBuffers(s: State, f: int, readback: Readback, keeps: set<int>)
    requires Buffers(s) && f in s.jobs && s.jobs[f].phase.Mapping?
    ensures Buffers(MappedStep(s, f, readback, keeps))
  {
    hide Balanced, DecideStep;
    var h, held := Holdings(s), s.jobs[f].phase.held;
    assert h[f := held] == h;
    if readback.Frame? && !s.destroyed && readback.crop != Some(Throws) {
      if readback.crop.None? {
        DecideBuffers(s, f, held, readback.content, readback.dispatches, keeps);
      } else {
        TakeKeeps(s.pool, h, f, readback.crop.value.pick);
        var (pool, crop) := Acquire(s.pool, readback.crop.value.pick);
        var t := s.(pool := pool);
        assert Holdings(t) == h;
        DecideBuffers(t, f, held + {crop}, readback.content, readback.dispatches, keeps);
      }
    } else {
      EndDrainReturns(s, f, held, keeps);
    }
  }

  lemma InferredBuffers(s: State, f: int, inference: Inference, keeps: set<int>)
    requires Buffers(s) && f in s.jobs && s.jobs[f].phase.Inferring?
    ensures Buffers(InferredStep(s, f, inference, keeps))
  {
    hide Balanced;
    var held := s.jobs[f].phase.held;
    assert Holdings(s)[f := held] == Holdings(s);
    EndDrainReturns(s, f, held, keeps);
    assert Holdings(InferredStep(s, f, inference, keeps)) == Holdings(EndDrain(s, f, held, keeps));
  }

  /** A step that leaves the pool alone, and what each frame holds. */
  ghost predicate SameHoldings(s: State, t: State) {
    && t.pool == s.pool
    && (forall f :: f in s.jobs ==> Held(s.jobs[f].phase) == if f in t.jobs then Held(t.jobs[f].phase) else {})
    && (forall f :: f in t.jobs ==> Held(t.jobs[f].phase) == if f in s.jobs then Held(s.jobs[f].phase) else {})
  }

  lemma SameBuffers(s: State, t: State)
    requires Buffers(s) && SameHoldings(s, t)
    ensures Buffers(t)
  {
    EmptyKeeps(s.pool, Holdings(s), Holdings(t));
  }

  lemma SubmitHoldings(s: State)
    requires Ownership(s)
    ensures SameHoldings(s, AfterSubmitStep(s))
  {
  }

  lemma PassHoldings(s: State, encodes: bool)
    ensures SameHoldings(s, PassStep(s, encodes))
  {
    hide ClaimSlot, ReleasePending, MarkPending, ReleaseSlot;
  }

  lemma WorkDoneHoldings(s: State, f: int, ok: bool)
    requires f in s.jobs && s.jobs[f].phase.Copying?
    ensures SameHoldings(s, WorkDoneStep(s, f, ok))
  {
  }

  lemma CompletedHoldings(s: State, f: int)
    requires f in s.jobs && s.jobs[f].phase.Done?
    ensures SameHoldings(s, CompletedStep(s, f))
  {
  }

  lemma BuffersKept(s: State, e: Event)
    requires Buffers(s) && Ownership(s)
    ensures Buffers(Step(s, e))
  {
    hide Buffers, Ownership, EnterStep, MappedStep, InferredStep, AfterSubmitStep, SameHoldings, PassStep,
      WorkDoneStep, CompletedStep, DestroyStep;
    var t := Step(s, e);
    match e
    case Enter(f, first, second, keeps) =>
      if f in s.jobs && s.jobs[f].phase.Queued? { EnterBuffers(s, f, first, second, keeps); }
    case Mapped(f, readback, keeps) =>
      if f in s.jobs && s.jobs[f].phase.Mapping? { MappedBuffers(s, f, readback, keeps); }
    case Inferred(f, inference, keeps) =>
      if f in s.jobs && s.jobs[f].phase.Inferring? { InferredBuffers(s, f, inference, keeps); }
    case Destroy => DestroyBuffers(s);
    case AfterSubmit =>
      SubmitHoldings(s);
      SameBuffers(s, t);
    case Pass(encodes) =>
      PassHoldings(s, encodes);
      SameBuffers(s, t);
    case WorkDone(f, ok) =>
      if f in s.jobs && s.jobs[f].phase.Copying? {
        WorkDoneHoldings(s, f, ok);
        SameBuffers(s, t);
      }
    case Completed(f) =>
      if f in s.jobs && s.jobs[f].phase.Done? {
        CompletedHoldings(s, f);
        SameBuffers(s, t);
      }
  }

  lemma DestroyBuffers(s: State)
    requires Buffers(s)
    ensures Buffers(DestroyStep(s))
  {
    assert Holdings(DestroyStep(s)) == Holdings(s);
  }

  // ---- presentation -------------------------------------------------------------------------------

  predicate Undecided(p: Phase) { p.Queued? || p.Mapping? || p.Inferring? }

  ghost predicate IsUndecided(s: State, f: int) { f in s.jobs && Undecided(s.jobs[f].phase) }

  function One(b: bool): int { if b then 1 else 0 }

  ghost function Fates(s: State, f: int): int {
    One(IsUndecided(s, f)) + One(f in s.log.shown) + One(f in s.log.stale) + One(f in s.log.dropped) + One(f in s.log.lost)
  }

  /** The scheduler's in-flight set is what runs, within the depth; every started frame has
      exactly one fate. */
  ghost predicate Admission(s: State) {
    && |s.schedule.inFlight| <= (if s.depth < 1 then 1 else s.depth)
    && s.schedule.inFlight <= s.log.started <= s.log.granted
    && (!s.destroyed ==> forall f :: f in s.schedule.inFlight <==> f in s.jobs && !s.jobs[f].phase.Copying?)
    && (forall f :: f in s.jobs ==> (f in s.log.started <==> !s.jobs[f].phase.Copying?))
    && (s.slots.pending.Some? ==> s.slots.pending.value.frame !in s.log.started)
    && (forall f :: Fates(s, f) == One(f in s.log.started))
  }

  function Last(shown: seq<int>): int { if shown == [] then -1 else shown[|shown| - 1] }

  ghost predicate Ascending(shown: seq<int>) { forall i, j :: 0 <= i < j < |shown| ==> shown[i] < shown[j] }

  /** Frames appear in ascending order, and the watermark is the last of them unless its own
      write failed. */
  ghost predicate Presentation(s: State) {
    && Ascending(s.log.shown)
    && (!s.destroyed ==> Last(s.log.shown) <= s.watermark)
    && (!s.destroyed && s.watermark != Last(s.log.shown) ==> s.watermark in s.log.lost)
  }

  /** What may still stand for an older frame on the canvas. */
  ghost predicate Carries(s: State, g: int) {
    IsUndecided(s, g) || g in s.log.lost || (s.log.shown != [] && Last(s.log.shown) == g)
  }

  ghost predicate Reached(s: State, f: int) { exists g :: f <= g && Carries(s, g) }

  /** No started frame is ever left without itself or a newer one shown, under way, or lost. */
  ghost predicate Progress(s: State) { forall f :: f in s.log.started ==> Reached(s, f) }

  /** The drain of `f` goes on. */
  ghost predicate Moves(s: State, t: State, f: int) {
    && IsUndecided(s, f) && f in t.jobs && Undecided(t.jobs[f].phase)
    && t.jobs == s.jobs[f := t.jobs[f]]
    && t.log.(seen := s.log.seen, run := s.log.run) == s.log && t.schedule == s.schedule
    && t.watermark == s.watermark && t.depth == s.depth
    && t.destroyed == s.destroyed && t.slots.pending == s.slots.pending
  }

  /** The drain of `f` returns, in one of the ways it can. */
  ghost predicate Ends(s: State, t: State, f: int) {
    && IsUndecided(s, f) && f in t.jobs && t.jobs[f].phase.Done?
    && t.jobs == s.jobs[f := t.jobs[f]]
    && t.schedule == s.schedule && t.depth == s.depth && t.destroyed == s.destroyed
    && t.slots.pending == s.slots.pending
    && var log := t.log.(freed := s.log.freed, seen := s.log.seen, run := s.log.run);
       || (log == s.log.(lost := s.log.lost + {f}) && (t.watermark == s.watermark || s.watermark < f == t.watermark))
       || (log == s.log.(stale := s.log.stale + {f}) && t.watermark == s.watermark && StaleSkips(s, f))
       || (log == s.log.(dropped := s.log.dropped + {f}) && t.watermark == s.watermark && f <= s.watermark && !s.destroyed)
       || (log == s.log.(shown := s.log.shown + [f]) && s.watermark < f == t.watermark && !s.destroyed)
  }

  lemma EnterMoves(s: State, f: int, first: Grab, second: Grab, keeps: set<int>)
    requires f in s.jobs && s.jobs[f].phase.Queued?
    ensures Moves(s, EnterStep(s, f, first, second, keeps), f) || Ends(s, EnterStep(s, f, first, second, keeps), f)
  {
    hide StaleSkips;
  }

  lemma DecideMoves(s: State, f: int, held: set<int>, content: int, dispatches: bool, keeps: set<int>)
    requires f in s.jobs && s.jobs[f].phase.Mapping?
    ensures Moves(s, DecideStep(s, f, held, content, dispatches, keeps), f)
            || Ends(s, DecideStep(s, f, held, content, dispatches, keeps), f)
  {
  }

  lemma MappedMoves(s: State, f: int, readback: Readback, keeps: set<int>)
    requires f in s.jobs && s.jobs[f].phase.Mapping?
    ensures Moves(s, MappedStep(s, f, readback, keeps), f) || Ends(s, MappedStep(s, f, readback, keeps), f)
  {
    var held := s.jobs[f].phase.held;
    if readback.Frame? && !s.destroyed && readback.crop != Some(Throws) {
      if readback.crop.None? {
        DecideMoves(s, f, held, readback.content, readback.dispatches, keeps);
      } else {
        var (pool, crop) := Acquire(s.pool, readback.crop.value.pick);
        DecideMoves(s.(pool := pool), f, held + {crop}, readback.content, readback.dispatches, keeps);
      }
    }
  }

  lemma InferredEnds(s: State, f: int, inference: Inference, keeps: set<int>)
    requires f in s.jobs && s.jobs[f].phase.Inferring?
    ensures Ends(s, InferredStep(s, f, inference, keeps), f)
  {
  }

  // ---- moves and ends keep it ------------------------------------------------------------------------

  ghost predicate Steady(s: State) { Admission(s) && Presentation(s) && Progress(s) }

  lemma Carried(s: State, t: State)
    requires Progress(s) && t.log.started == s.log.started
    requires forall g :: Carries(s, g) ==> Reached(t, g)
    ensures Progress(t)
  {
    forall f | f in t.log.started
      ensures Reached(t, f)
    {
      var g :| f <= g && Carries(s, g);
      var h :| g <= h && Carries(t, h);
      assert f <= h && Carries(t, h);
    }
  }

  lemma MoveAdmission(s: State, t: State, f: int)
    requires Admission(s) && Moves(s, t, f)
    ensures Admission(t)
  {
    forall g
      ensures Fates(t, g) == Fates(s, g)
    {
    }
  }

  lemma MoveSteady(s: State, t: State, f: int)
    requires Steady(s) && Moves(s, t, f)
    ensures Steady(t)
  {
    hide Admission;
    MoveAdmission(s, t, f);
    SameCarriers(s, t);
  }

  /** Every carrier remains one. */
  lemma SameCarriers(s: State, t: State)
    requires Progress(s) && t.log.started == s.log.started
    requires forall g :: Carries(s, g) ==> Carries(t, g)
    ensures Progress(t)
  {
    forall g | Carries(s, g)
      ensures Reached(t, g)
    {
      assert g <= g && Carries(t, g);
    }
    Carried(s, t);
  }

  lemma EndAdmission(s: State, t: State, f: int)
    requires Admission(s) && Ends(s, t, f)
    ensures Admission(t)
  {
    forall g
      ensures Fates(t, g) == Fates(s, g)
    {
      assert Fates(s, f) == 1;
      assert g in s.log.shown + [f] <==> g in s.log.shown || g == f;
    }
  }

  lemma EndPresentation(s: State, t: State, f: int)
    requires Presentation(s) && Ends(s, t, f)
    ensures Presentation(t)
  {
    if |s.log.shown| < |t.log.shown| {
      assert forall i :: 0 <= i < |s.log.shown| ==> s.log.shown[i] <= Last(s.log.shown);
    }
  }

  /** The frame that ends is carried on: by itself, by the watermark, or by the newer frame in
      flight that justified skipping it. */
  lemma EndReached(s: State, t: State, f: int)
    requires Steady(s) && Ends(s, t, f) && 1 <= f
    ensures Reached(t, f)
  {
    if f in t.log.lost || |t.log.shown| > |s.log.shown| {
      assert f <= f && Carries(t, f);
    } else if f in t.log.dropped && f !in s.log.dropped {
      assert f <= s.watermark && Carries(t, s.watermark);
    } else {
      assert StaleSkips(s, f) by { assert Fates(s, f) == 1; }
      var newest :| newest in s.schedule.inFlight + {-1} && newest - f > STALE_SKIP_BEHIND;
      assert Reached(s, newest);
      var g :| newest <= g && Carries(s, g);
      assert f <= g && Carries(t, g);
    }
  }

  lemma EndSteady(s: State, t: State, f: int)
    requires Steady(s) && Ends(s, t, f) && 1 <= f
    ensures Steady(t)
  {
    EndAdmission(s, t, f);
    EndPresentation(s, t, f);
    EndReached(s, t, f);
    forall g | Carries(s, g)
      ensures Reached(t, g)
    {
      if g != f {
        if g == Last(s.log.shown) && |t.log.shown| > |s.log.shown| {
          assert g <= f && Carries(t, f);
        } else {
          assert g <= g && Carries(t, g);
        }
      }
    }
    Carried(s, t);
  }

  // ---- the other steps --------------------------------------------------------------------------------

  /** Jobs, log and watermark keep all that the presentation invariants speak of. */
  ghost predicate SameFates(s: State, t: State) {
    && t.log.started == s.log.started && t.log.shown == s.log.shown && t.log.stale == s.log.stale
    && t.log.dropped == s.log.dropped && t.log.lost == s.log.lost
    && (forall f :: IsUndecided(t, f) <==> IsUndecided(s, f))
  }

  lemma SameSteady(s: State, t: State)
    requires Presentation(s) && Progress(s) && SameFates(s, t)
    requires t.destroyed || (t.destroyed == s.destroyed && t.watermark == s.watermark)
    ensures Presentation(t) && Progress(t)
    ensures forall f :: Fates(t, f) == Fates(s, f)
  {
    SameCarriers(s, t);
  }

  /** A pass touches slots, grants and the skip count, and leaves at most its own frame pending. */
  lemma ReclaimTouches(s: State)
    ensures var t := Reclaim(s);
      && t == s.(slots := t.slots, schedule := t.schedule, log := s.log.(freed := t.log.freed))
      && t.schedule.inFlight == s.schedule.inFlight && t.slots.pending.None?
  {
  }

  lemma PassTouches(s: State, encodes: bool)
    ensures var t := PassStep(s, encodes);
      && t.jobs == s.jobs && t.schedule.inFlight == s.schedule.inFlight && t.depth == s.depth
      && t.destroyed == s.destroyed && t.watermark == s.watermark && t.still == s.still && t.picture == s.picture
      && t.log == s.log.(granted := t.log.granted, freed := t.log.freed) && s.log.granted <= t.log.granted
      && (t.slots.pending.None? || t.slots.pending == s.slots.pending || t.slots.pending.value.frame == s.frames + 1)
  {
    hide Reclaim, FirstFree;
    ReclaimTouches(s);
  }

  lemma PassSteady(s: State, encodes: bool)
    requires Ownership(s) && Steady(s)
    ensures Steady(PassStep(s, encodes))
  {
    hide PassStep, Linear, Owners, Fates, Progress, Presentation;
    PassTouches(s, encodes);
    SameSteady(s, PassStep(s, encodes));
  }

  lemma AfterSubmitSteady(s: State)
    requires Ownership(s) && Steady(s)
    ensures Steady(AfterSubmitStep(s))
  {
    hide Fates, Progress, Presentation;
    SameSteady(s, AfterSubmitStep(s));
  }

  lemma CompletedSteady(s: State, f: int)
    requires Steady(s) && f in s.jobs && s.jobs[f].phase.Done?
    ensures Steady(CompletedStep(s, f))
  {
    hide Fates, Progress, Presentation;
    SameSteady(s, CompletedStep(s, f));
  }

  lemma DestroySteady(s: State)
    requires Steady(s)
    ensures Steady(DestroyStep(s))
  {
    hide Fates, Progress, Presentation;
    SameSteady(s, DestroyStep(s));
  }

  lemma WorkDoneSteady(s: State, f: int, ok: bool)
    requires Ownership(s) && Steady(s) && f in s.jobs && s.jobs[f].phase.Copying?
    ensures Steady(WorkDoneStep(s, f, ok))
  {
    var t := WorkDoneStep(s, f, ok);
    if ok && ShouldProcess(s.schedule, f, s.depth) {
      StartSteady(s, f);
    } else {
      hide Fates, Progress, Presentation;
      SameSteady(s, t);
    }
  }

  lemma StartSteady(s: State, f: int)
    requires Ownership(s) && Steady(s) && f in s.jobs && s.jobs[f].phase.Copying?
    requires ShouldProcess(s.schedule, f, s.depth)
    ensures Steady(WorkDoneStep(s, f, true))
  {
    var t := WorkDoneStep(s, f, true);
    assert Admission(t) by {
      forall g
        ensures Fates(t, g) == Fates(s, g) + One(g == f)
      {
      }
      assert Fates(s, f) == 0;
    }
    forall g | g in t.log.started
      ensures Reached(t, g)
    {
      if g == f {
        assert g <= f && Carries(t, f);
      } else {
        var h :| g <= h && Carries(s, h);
        assert g <= h && Carries(t, h);
      }
    }
  }

  // ---- every run ------------------------------------------------------------------------------------

  ghost predicate Inv(s: State) { Ownership(s) && Buffers(s) && Steady(s) }

  lemma StartInv(count: nat, depth: nat)
    requires 0 < count
    ensures Inv(Start(count, depth))
  {
    var s := Start(count, depth);
    assert Owners(s) == map[];
    assert Holdings(s) == map[];
  }

  lemma FramesArePositive(s: State, f: int)
    requires Ownership(s) && f in s.jobs
    ensures 1 <= f
  {
  }

  lemma SteadyKept(s: State, e: Event)
    requires Ownership(s) && Steady(s)
    ensures Steady(Step(s, e))
  {
    hide Ownership, Steady, EnterStep, MappedStep, InferredStep, AfterSubmitStep, PassStep, WorkDoneStep,
      CompletedStep, DestroyStep, Moves, Ends;
    var t := Step(s, e);
    match e
    case Pass(encodes) => PassSteady(s, encodes);
    case AfterSubmit => AfterSubmitSteady(s);
    case WorkDone(f, ok) => if f in s.jobs && s.jobs[f].phase.Copying? { WorkDoneSteady(s, f, ok); }
    case Enter(f, first, second, keeps) =>
      if f in s.jobs && s.jobs[f].phase.Queued? {
        EnterMoves(s, f, first, second, keeps);
        FramesArePositive(s, f);
        if Moves(s, t, f) { MoveSteady(s, t, f); } else { EndSteady(s, t, f); }
      }
    case Mapped(f, readback, keeps) =>
      if f in s.jobs && s.jobs[f].phase.Mapping? {
        MappedMoves(s, f, readback, keeps);
        FramesArePositive(s, f);
        if Moves(s, t, f) { MoveSteady(s, t, f); } else { EndSteady(s, t, f); }
      }
    case Inferred(f, inference, keeps) =>
      if f in s.jobs && s.jobs[f].phase.Inferring? {
        InferredEnds(s, f, inference, keeps);
        FramesArePositive(s, f);
        EndSteady(s, t, f);
      }
    case Completed(f) => if f in s.jobs && s.jobs[f].phase.Done? { CompletedSteady(s, f); }
    case Destroy => DestroySteady(s);
  }

  lemma {:induction false} RunInv(s: State, events: seq<Event>)
    requires Inv(s)
    ensures Inv(Run(s, events))
    decreases |events|
  {
    hide Ownership, Buffers, Steady, Step;
    if events != [] {
      OwnershipKept(s, events[0]);
      BuffersKept(s, events[0]);
      SteadyKept(s, events[0]);
      RunInv(Step(s, events[0]), events[1..]);
    }
  }

  // ---- main results -----------------------------------------------------------------------------------

  ghost predicate Owns(s: State, f: int, slot: nat) { f in Owners(s) && Owners(s)[f] == slot }

  /** On every run a slot is busy exactly while one pending claim or one unreturned drain holds
      it, nobody else holds it too, and every grant is released once, by its own frame, when it
      is over: a later holder's slot is never freed by an earlier frame. */
  lemma SlotsAreLinear(count: nat, depth: nat, events: seq<Event>)
    requires 0 < count
    ensures var s := Run(Start(count, depth), events);
      && (forall i :: 0 <= i < |s.slots.busy| ==> (s.slots.busy[i] <==> exists f :: Owns(s, f, i)))
      && (forall f, g, i :: Owns(s, f, i) && Owns(s, g, i) ==> f == g)
      && (forall f :: s.log.freed[f] == One(f in s.log.granted && f !in Owners(s)))
  {
    StartInv(count, depth);
    RunInv(Start(count, depth), events);
    var s := Run(Start(count, depth), events);
    forall i | 0 <= i < |s.slots.busy|
      ensures s.slots.busy[i] <==> exists f :: Owns(s, f, i)
    {
      if s.slots.busy[i] {
        var f :| f in Owners(s) && Owners(s)[f] == i;
        assert Owns(s, f, i);
      }
    }
  }

  /** On every run no ArrayBuffer is in two drains, or in a drain and the pool, and each one
      acquired is released once, exactly when its drain has returned. */
  lemma BuffersAreLinear(count: nat, depth: nat, events: seq<Event>)
    requires 0 < count
    ensures var s := Run(Start(count, depth), events);
      && (forall f, g :: f in s.jobs && g in s.jobs && f != g ==> Held(s.jobs[f].phase) !! Held(s.jobs[g].phase))
      && (forall f :: f in s.jobs ==> Held(s.jobs[f].phase) !! s.pool.free)
      && (forall b :: s.pool.lent[b] == s.pool.back[b] + One(HeldBySome(Holdings(s), b)))
  {
    StartInv(count, depth);
    RunInv(Start(count, depth), events);
    var s := Run(Start(count, depth), events);
    forall f, g | f in s.jobs && g in s.jobs && f != g
      ensures Held(s.jobs[f].phase) !! Held(s.jobs[g].phase)
    {
      assert Holdings(s)[f] !! Holdings(s)[g];
    }
    forall f | f in s.jobs
      ensures Held(s.jobs[f].phase) !! s.pool.free
    {
      assert Holdings(s)[f] !! s.pool.free;
    }
  }

  ghost predicate Quiet(s: State) { s.jobs == map[] && s.slots.pending.None? }

  lemma QuietSlots(s: State)
    requires Ownership(s) && Quiet(s)
    ensures forall i :: 0 <= i < |s.slots.busy| ==> !s.slots.busy[i]
  {
    assert Owners(s) == map[];
  }

  lemma QuietBuffers(s: State)
    requires Buffers(s) && Quiet(s)
    ensures s.pool.lent == s.pool.back
  {
    assert Holdings(s) == map[];
    forall b
      ensures s.pool.lent[b] == s.pool.back[b]
    {
      assert !HeldBySome(Holdings(s), b);
    }
  }

  /** The four ends of a frame that was started. */
  function Ended(log: Log, f: int): int {
    One(f in log.shown) + One(f in log.stale) + One(f in log.dropped) + One(f in log.lost)
  }

  lemma QuietFates(s: State)
    requires Admission(s) && Quiet(s)
    ensures !s.destroyed ==> s.schedule.inFlight == {}
    ensures forall f :: Ended(s.log, f) == One(f in s.log.started)
  {
    if !s.destroyed {
      assert forall f :: f !in s.schedule.inFlight;
      assert s.schedule.inFlight == {};
    }
    forall f
      ensures Ended(s.log, f) == One(f in s.log.started)
    {
      assert Fates(s, f) == One(f in s.log.started);
    }
  }

  /** Nothing leaks: once all is quiet every slot is free, every buffer is back, the scheduler is
      empty, and every started frame had exactly one of the four ends. */
  lemma QuietIsClean(count: nat, depth: nat, events: seq<Event>)
    requires 0 < count && Quiet(Run(Start(count, depth), events))
    ensures var s := Run(Start(count, depth), events);
      && (forall i :: 0 <= i < |s.slots.busy| ==> !s.slots.busy[i])
      && s.pool.lent == s.pool.back
      && (!s.destroyed ==> s.schedule.inFlight == {})
      && (forall f :: Ended(s.log, f) == One(f in s.log.started))
  {
    hide Ownership, Buffers, Admission, Progress, Presentation, Run, Quiet, Ended;
    StartInv(count, depth);
    RunInv(Start(count, depth), events);
    var s := Run(Start(count, depth), events);
    QuietSlots(s);
    QuietBuffers(s);
    QuietFates(s);
  }

  /** Under any completion order the frames shown only ever ascend. */
  lemma ShownAscend(count: nat, depth: nat, events: seq<Event>)
    requires 0 < count
    ensures Ascending(Run(Start(count, depth), events).log.shown)
  {
    StartInv(count, depth);
    RunInv(Start(count, depth), events);
  }

  lemma TrailsAnother(s: State, f: int)
    requires StaleSkips(s, f) && 1 <= f
    ensures exists g :: g in s.schedule.inFlight && g - f > STALE_SKIP_BEHIND
  {
    var g :| g in s.schedule.inFlight + {-1} && g - f > STALE_SKIP_BEHIND;
  }

  /** A frame is skipped as stale only behind a frame still in flight, never when it is the
      newest itself. */
  lemma NewestIsNeverSkipped(s: State, e: Event, f: int)
    requires Inv(s) && f in Step(s, e).log.stale && f !in s.log.stale
    ensures exists g :: g in s.schedule.inFlight && g - f > STALE_SKIP_BEHIND
  {
    hide Ownership, Buffers, Steady, PassStep, AfterSubmitStep, WorkDoneStep, InferredStep, EnterStep, MappedStep,
      StaleSkips;
    match e {
      case Pass(encodes) => PassTouches(s, encodes);
      case AfterSubmit => OthersSkipNothing(s, e);
      case WorkDone(_, _) => OthersSkipNothing(s, e);
      case Inferred(_, _, _) => OthersSkipNothing(s, e);
      case Enter(g, first, second, keeps) =>
        EnterMoves(s, g, first, second, keeps);
        FramesArePositive(s, f);
        TrailsAnother(s, f);
      case Mapped(g, readback, keeps) =>
        MappedMoves(s, g, readback, keeps);
        FramesArePositive(s, f);
        TrailsAnother(s, f);
      case Completed(_) =>
      case Destroy =>
    }
  }

  lemma OthersSkipNothing(s: State, e: Event)
    requires e.AfterSubmit? || e.WorkDone? || e.Inferred?
    ensures Step(s, e).log.stale == s.log.stale
  {
    hide ReleaseSlot, ShouldProcess, MarkStarted, NoteSkipped;
  }

  /** The newest frame shown is up to `f`, or something at or above it was lost. */
  ghost predicate CaughtUp(log: Log, f: int) { f <= Last(log.shown) || exists g :: f <= g && g in log.lost }

  lemma QuietCaughtUp(s: State, f: int)
    requires Progress(s) && Quiet(s) && f in s.log.started
    ensures CaughtUp(s.log, f)
  {
    var g :| f <= g && Carries(s, g);
  }

  lemma LastWasStarted(s: State)
    requires Admission(s) && s.log.shown != []
    ensures Last(s.log.shown) in s.log.started
  {
    var last := Last(s.log.shown);
    assert last in s.log.shown;
    assert Fates(s, last) == One(last in s.log.started);
  }

  lemma QuietNewest(s: State)
    requires Admission(s) && Progress(s) && Quiet(s) && Ownership(s)
    requires s.log.started != {} && s.log.lost == {}
    ensures IsNewest(s.log.started, Last(s.log.shown))
  {
    hide Ownership, Progress, Quiet, Admission;
    forall f | f in s.log.started
      ensures 1 <= f <= Last(s.log.shown)
    {
      QuietCaughtUp(s, f);
      StartedIsPositive(s, f);
    }
    HasMember(s.log.started);
    LastWasStarted(s);
  }

  lemma StartedIsPositive(s: State, f: int)
    requires Ownership(s) && Admission(s) && f in s.log.started
    ensures 1 <= f
  {
    assert f in s.log.granted;
  }

  /** Once all is quiet the canvas has caught up with every started frame, skipped ones too,
      except behind a frame that was lost: without losses the last frame shown is the newest
      one started. */
  lemma CanvasCatchesUp(count: nat, depth: nat, events: seq<Event>)
    requires 0 < count && Quiet(Run(Start(count, depth), events))
    ensures var s := Run(Start(count, depth), events);
      && (forall f :: f in s.log.started ==> CaughtUp(s.log, f))
      && (s.log.started != {} && s.log.lost == {} ==> IsNewest(s.log.started, Last(s.log.shown)))
  {
    hide Ownership, Buffers, Admission, Progress, Presentation, Run, Quiet, CaughtUp;
    StartInv(count, depth);
    RunInv(Start(count, depth), events);
    var s := Run(Start(count, depth), events);
    forall f | f in s.log.started
      ensures CaughtUp(s.log, f)
    {
      QuietCaughtUp(s, f);
    }
    if s.log.started != {} && s.log.lost == {} { QuietNewest(s); }
  }
}

/** The SRVGG forward pass computes the layers in sequence, and its one-time weight upload holds
    up against every exit but two. */
module SrvggLaws {
  import opened Wrappers
  import opened Srvgg

  // ---- ping-pong ---------------------------------------------------------------------------------

  /** The reference: the first `n` layers, one after the other. */
  function Forward<V>(k: Kernels<V>, layers: seq<Layer>, tiled: bool, n: nat, frame: V, weights: Option<V>): V
    requires n <= |layers|
  {
    if n == 0 then frame
    else
      var x := Forward(k, layers, tiled, n - 1, frame, weights);
      if tiled then k.convTiled(layers[n - 1], x, weights) else k.conv(layers[n - 1], x, weights)
  }

  lemma {:induction false} ExecuteAppend<V>(k: Kernels<V>, m: Memory<V>, a: seq<Command<V>>, b: seq<Command<V>>)
    ensures Execute(k, m, a + b) == Execute(k, Execute(k, m, a), b)
  {
    if b == [] {
      assert a + b == a;
    } else {
      var n := |b| - 1;
      ExecuteAppend(k, m, a, b[..n]);
      assert (a + b)[..|a + b| - 1] == a + b[..n];
    }
  }

  lemma DispatchIs<V>(k: Kernels<V>, m: Memory<V>, layer: Layer, tiled: bool, n: nat)
    ensures var r := Perform(k, m, DispatchAt(layer, tiled, n));
      && Read(r, InOf(n + 1)) == (if tiled then k.convTiled(layer, Read(m, InOf(n)), m.weights)
                                  else k.conv(layer, Read(m, InOf(n)), m.weights))
      && r.pre == m.pre && r.weights == m.weights
  {
  }

  /** After `n` dispatches the buffer the next one reads holds the `n`-layer result, and the frame and
      the weights are as they were: no fixed layer count is needed. */
  lemma {:induction false} PingPong<V>(k: Kernels<V>, m: Memory<V>, layers: seq<Layer>, tiled: bool, n: nat)
    requires n <= |layers|
    ensures var r := Execute(k, m, Dispatches(layers, tiled, n));
      && Read(r, InOf(n)) == Forward(k, layers, tiled, n, m.pre, m.weights)
      && r.pre == m.pre && r.weights == m.weights
  {
    if n > 0 {
      hide DispatchAt, Perform, InOf, Read;
      PingPong(k, m, layers, tiled, n - 1);
      var cs := Dispatches<V>(layers, tiled, n);
      assert cs[..n - 1] == Dispatches<V>(layers, tiled, n - 1);
      DispatchIs(k, Execute(k, m, cs[..n - 1]), layers[n - 1], tiled, n - 1);
    } else {
      assert InOf(0) == Preproc;
    }
  }

  /** No dispatch of a recording reads a buffer it writes. */
  lemma {:induction false} NeverReadsItsOutput<V>(layers: seq<Layer>, tiled: bool, n: nat)
    requires n <= |layers|
    ensures forall c :: c in Dispatches<V>(layers, tiled, n) ==> Reads(c) !! Writes(c)
    ensures Reads(TailCommand<V>(n, tiled)) !! Writes(TailCommand<V>(n, tiled))
  {
    if n > 0 {
      NeverReadsItsOutput<V>(layers, tiled, n - 1);
    }
  }

  /** The tail reads the last layer's output. */
  lemma TailReadsLastLayer<V>(k: Kernels<V>, m: Memory<V>, layers: seq<Layer>, tiled: bool)
    requires layers != []
    ensures var r := Execute(k, m, Dispatches(layers, tiled, |layers|) + [TailCommand(|layers|, tiled)]);
      r.tail == k.tail(Forward(k, layers, tiled, |layers|, m.pre, m.weights), m.pre) && r.weights == m.weights
  {
    var n := |layers|;
    var cs := Dispatches<V>(layers, tiled, n);
    PingPong(k, m, layers, tiled, n);
    assert (cs + [TailCommand(n, tiled)])[..n] == cs;
  }

  // ---- a served frame ---------------------------------------------------------------------------------

  /** weightsGpu_ set implies its clone was submitted: the GPU copy is the CPU's. */
  ghost predicate Armed<V>(m: Machine<V>) {
    m.engine.gpu ==> m.engine.cpu.Some? && m.engine.layers != [] && m.memory.weights == m.engine.cpu
  }

  /** What an SRVGG frame ought to be. */
  function Ideal<V>(k: Kernels<V>, e: Engine<V>, frame: V, weights: Option<V>): V {
    k.tail(Forward(k, e.layers, e.tiled, |e.layers|, frame, weights), frame)
  }

  lemma EngineKeeps<V>(e: Engine<V>, a: Allocs)
    ensures var (f, served, cs) := RunEngine(e, a);
      && f == e.(gpu := f.gpu) && (e.gpu ==> f.gpu)
      && (served ==> f.gpu && (e.gpu || e.layers != []))
  {
    hide Dispatches, Accepted, TailCommand;
    AcceptedAtMost(e.layers, e.tiled, 0);
  }

  /** What the engine records: the transfer exactly when the latch is being set, then some convolutions,
      all of them and the tail if it serves the frame. */
  lemma RecordingIs<V>(e: Engine<V>, a: Allocs)
    ensures var (f, served, cs) := RunEngine(e, a);
      var clone := if f.gpu && !e.gpu then [CloneWeights(e.cpu.value)] else [];
      && (f.gpu && !e.gpu ==> e.cpu.Some? && e.layers != [])
      && if served then cs == clone + Dispatches(e.layers, e.tiled, |e.layers|) + [TailCommand(|e.layers|, e.tiled)]
         else exists n: nat :: n <= |e.layers| && cs == clone + Dispatches(e.layers, e.tiled, n)
  {
    hide Dispatches, TailCommand;
    AcceptedAtMost(e.layers, e.tiled, 0);
    var (f, uploaded, clone) := UploadWeights(e, a.weights);
    assert Dispatches<V>(e.layers, e.tiled, 0) == [] by { NoDispatches<V>(e.layers, e.tiled); }
    assert clone + [] == clone;
  }

  lemma NoDispatches<V>(layers: seq<Layer>, tiled: bool)
    ensures Dispatches<V>(layers, tiled, 0) == []
  {
  }

  /** The weights on the device after a submitted recording, and the frame if the engine served it. */
  lemma SubmittedIs<V>(k: Kernels<V>, m: Memory<V>, e: Engine<V>, a: Allocs, frame: V)
    ensures var (f, served, cs) := RunEngine(e, a);
      var weights := if f.gpu && !e.gpu then e.cpu else m.weights;
      var r := Execute(k, m, [Preprocess(frame)] + cs + if served then [] else [Extract]);
      && r.weights == weights
      && (served && e.layers != [] ==> r.tail == Ideal(k, e, frame, weights))
  {
    hide Execute, Dispatches, TailCommand, RunEngine;
    var (f, served, cs) := RunEngine(e, a);
    RecordingIs(e, a);
    EngineKeeps(e, a);
    var clone: seq<Command<V>> := if f.gpu && !e.gpu then [CloneWeights(e.cpu.value)] else [];
    var head := [Preprocess(frame)] + clone;
    var m1 := Execute(k, m, head);
    HeadIs(k, m, frame, clone, if f.gpu && !e.gpu then e.cpu else m.weights);
    if served {
      var rest := Dispatches(e.layers, e.tiled, |e.layers|) + [TailCommand(|e.layers|, e.tiled)];
      assert [Preprocess(frame)] + cs + [] == head + rest;
      ExecuteAppend(k, m, head, rest);
      if e.layers != [] {
        TailReadsLastLayer(k, m1, e.layers, e.tiled);
      } else {
        TailKeepsWeights(k, m1, e.layers, e.tiled);
      }
    } else {
      var n: nat :| n <= |e.layers| && cs == clone + Dispatches(e.layers, e.tiled, n);
      var rest := Dispatches(e.layers, e.tiled, n) + [Extract];
      assert [Preprocess(frame)] + cs + [Extract] == head + rest;
      ExecuteAppend(k, m, head, rest);
      ExtractKeepsWeights(k, m1, e.layers, e.tiled, n);
    }
  }

  lemma HeadIs<V>(k: Kernels<V>, m: Memory<V>, frame: V, clone: seq<Command<V>>, weights: Option<V>)
    requires (clone == [] && weights == m.weights) || (weights.Some? && clone == [CloneWeights(weights.value)])
    ensures Execute(k, m, [Preprocess(frame)] + clone) == m.(pre := frame, weights := weights)
  {
    var one := [Preprocess(frame)];
    assert one[..0] == [];
    assert Execute(k, m, one) == m.(pre := frame);
    ExecuteAppend(k, m, one, clone);
    if clone != [] { assert clone[..0] == []; }
  }

  lemma TailKeepsWeights<V>(k: Kernels<V>, m: Memory<V>, layers: seq<Layer>, tiled: bool)
    ensures Execute(k, m, Dispatches(layers, tiled, |layers|) + [TailCommand(|layers|, tiled)]).weights == m.weights
  {
    var cs := Dispatches<V>(layers, tiled, |layers|);
    PingPong(k, m, layers, tiled, |layers|);
    assert (cs + [TailCommand(|layers|, tiled)])[..|layers|] == cs;
  }

  lemma ExtractKeepsWeights<V>(k: Kernels<V>, m: Memory<V>, layers: seq<Layer>, tiled: bool, n: nat)
    requires n <= |layers|
    ensures Execute(k, m, Dispatches(layers, tiled, n) + [Extract]).weights == m.weights
  {
    var cs := Dispatches<V>(layers, tiled, n);
    PingPong(k, m, layers, tiled, n);
    assert (cs + [Extract])[..n] == cs;
  }

  // ---- every exit ------------------------------------------------------------------------------------------

  /** The weight clone goes into this frame's recording. */
  predicate Clones<V>(e: Engine<V>, f: Faults) {
    f.prepared && f.attempted && f.available && !e.gpu && e.cpu.Some? && e.layers != [] && f.allocs.weights
  }

  /** The returns at which a recording is dropped without re-arming the upload: the ncnn fallback that
      fails after the engine gave up, and the output allocation. */
  predicate DropsRecording<V>(e: Engine<V>, f: Faults) {
    (!Attempt(e, f).1 && !f.extracted) || !f.outAllocated
  }

  lemma ClonesIs<V>(e: Engine<V>, f: Faults)
    requires f.prepared
    ensures Clones(e, f) <==> Attempt(e, f).0.gpu && !e.gpu
  {
    hide Dispatches, Accepted, TailCommand;
    AcceptedAtMost(e.layers, e.tiled, 0);
  }

  /** From a machine whose latch tells the truth, a frame leaves one whose latch tells the truth exactly
      unless it recorded the clone and then took one of those two returns. A failed submit is no
      exception, whichever engine was to serve the frame. */
  lemma ArmedIff<V>(k: Kernels<V>, m: Machine<V>, frame: V, f: Faults)
    requires Armed(m)
    ensures Armed(FrameStep(k, m, frame, f).0) <==> !(Clones(m.engine, f) && DropsRecording(m.engine, f))
  {
    if f.prepared {
      hide Execute, RunEngine;
      ClonesIs(m.engine, f);
      EngineKeeps(m.engine, f.allocs);
      RecordingIs(m.engine, f.allocs);
      var (e, served, recorded) := Attempt(m.engine, f);
      var memory := if e.gpu && !m.engine.gpu then m.memory.(weights := None) else m.memory;
      AttemptSubmitted(k, memory, m.engine, f, frame);
    }
  }

  lemma AttemptSubmitted<V>(k: Kernels<V>, memory: Memory<V>, e: Engine<V>, f: Faults, frame: V)
    ensures var (g, served, cs) := Attempt(e, f);
      var weights := if g.gpu && !e.gpu then e.cpu else memory.weights;
      var r := Execute(k, memory, [Preprocess(frame)] + cs + if served then [] else [Extract]);
      && r.weights == weights
      && (served && e.layers != [] ==> r.tail == Ideal(k, e, frame, weights))
  {
    hide RunEngine, Ideal;
    if f.attempted && f.available {
      SubmittedIs(k, memory, e, f.allocs, frame);
    } else {
      hide Execute;
      NoEngine(k, memory, frame);
    }
  }

  lemma NoEngine<V>(k: Kernels<V>, m: Memory<V>, frame: V)
    ensures Execute(k, m, [Preprocess(frame)] + [] + [Extract]).weights == m.weights
  {
    HeadIs(k, m, frame, [], m.weights);
    var head := [Preprocess(frame)] + [];
    assert (head + [Extract])[..1] == head;
  }

  /** A frame the engine serves is the sequential composition of its layers on the device's weights:
      on the model's own if the latch told the truth, on whatever the fresh buffer held if not. */
  lemma ServedIs<V>(k: Kernels<V>, m: Machine<V>, frame: V, f: Faults)
    requires FrameStep(k, m, frame, f).1.Served? && FrameStep(k, m, frame, f).1.bySrvgg
    requires m.engine.gpu ==> m.engine.layers != []
    ensures FrameStep(k, m, frame, f).1.frame
            == Ideal(k, m.engine, frame, if m.engine.gpu then m.memory.weights else m.engine.cpu)
  {
    hide Execute, RunEngine, Ideal;
    EngineKeeps(m.engine, f.allocs);
    RecordingIs(m.engine, f.allocs);
    var (e, served, recorded) := Attempt(m.engine, f);
    var memory := if e.gpu && !m.engine.gpu then m.memory.(weights := None) else m.memory;
    AttemptSubmitted(k, memory, m.engine, f, frame);
  }

  // ---- every run ----------------------------------------------------------------------------------------------

  function After<V>(k: Kernels<V>, m: Machine<V>, frames: seq<(V, Faults)>): Machine<V>
    decreases |frames|
  {
    if frames == [] then m else After(k, FrameStep(k, m, frames[0].0, frames[0].1).0, frames[1..])
  }

  /** No frame takes one of the two returns with the clone recorded. */
  ghost predicate KeepsRecordings<V>(k: Kernels<V>, m: Machine<V>, frames: seq<(V, Faults)>)
    decreases |frames|
  {
    frames == []
    || (!(Clones(m.engine, frames[0].1) && DropsRecording(m.engine, frames[0].1))
        && KeepsRecordings(k, FrameStep(k, m, frames[0].0, frames[0].1).0, frames[1..]))
  }

  lemma EngineIsKept<V>(k: Kernels<V>, m: Machine<V>, frame: V, f: Faults)
    ensures FrameStep(k, m, frame, f).0.engine == m.engine.(gpu := FrameStep(k, m, frame, f).0.engine.gpu)
  {
    hide Execute, RunEngine;
    EngineKeeps(m.engine, f.allocs);
  }

  /** Over any run of frames, with any failures but those, every frame the engine serves is exactly the
      model's, on the model's weights. */
  lemma {:induction false} EveryServedFrameIsIdeal<V>(k: Kernels<V>, m: Machine<V>, frames: seq<(V, Faults)>, frame: V, f: Faults)
    requires Armed(m) && KeepsRecordings(k, m, frames)
    ensures var n := After(k, m, frames);
      && Armed(n) && n.engine == m.engine.(gpu := n.engine.gpu)
      && var r := FrameStep(k, n, frame, f).1;
         r.Served? && r.bySrvgg ==> r.frame == Ideal(k, m.engine, frame, m.engine.cpu)
    decreases |frames|
  {
    hide FrameStep, Ideal, Clones, DropsRecording;
    if frames == [] {
      var r := FrameStep(k, m, frame, f).1;
      if r.Served? && r.bySrvgg { ServedIs(k, m, frame, f); }
    } else {
      var n := FrameStep(k, m, frames[0].0, frames[0].1).0;
      ArmedIff(k, m, frames[0].0, frames[0].1);
      EngineIsKept(k, m, frames[0].0, frames[0].1);
      EveryServedFrameIsIdeal(k, n, frames[1..], frame, f);
      SameIdeal(k, m.engine, n.engine, frame);
    }
  }

  lemma SameIdeal<V>(k: Kernels<V>, d: Engine<V>, e: Engine<V>, frame: V)
    requires e == d.(gpu := e.gpu)
    ensures Ideal(k, e, frame, e.cpu) == Ideal(k, d, frame, d.cpu)
  {
  }

  /** A frame that asks for the engine and meets no fault. */
  predicate Faultless(f: Faults) {
    && f.prepared && f.attempted && f.available && f.allocs.weights && f.allocs.activations && f.allocs.tail
    && f.outAllocated && f.submitted && f.downloaded
  }

  lemma FaultlessIsServed<V>(k: Kernels<V>, m: Machine<V>, frame: V, f: Faults)
    requires Faultless(f) && m.engine.gpu && Accepted(m.engine.layers, m.engine.tiled, 0) == |m.engine.layers|
    ensures FrameStep(k, m, frame, f).1.Served? && FrameStep(k, m, frame, f).1.bySrvgg
  {
    hide Execute, Dispatches, TailCommand;
  }

  /** And after one of those two returns the next faultless frame is served all the same, convolved
      with a buffer nothing was ever written to. */
  lemma DroppedCloneIsUsed<V>(k: Kernels<V>, m: Machine<V>, first: V, f: Faults, second: V, g: Faults)
    requires Armed(m) && Clones(m.engine, f) && DropsRecording(m.engine, f)
    requires Faultless(g) && Accepted(m.engine.layers, m.engine.tiled, 0) == |m.engine.layers|
    ensures FrameStep(k, FrameStep(k, m, first, f).0, second, g).1 == Served(Ideal(k, m.engine, second, None), true)
  {
    hide Execute, RunEngine, Ideal;
    ClonesIs(m.engine, f);
    EngineKeeps(m.engine, f.allocs);
    var n := FrameStep(k, m, first, f).0;
    assert n.engine == m.engine.(gpu := true) && n.memory.weights == None;
    FaultlessIsServed(k, n, second, g);
    ServedIs(k, n, second, g);
    NoneIdeal(k, m.engine, n.engine, second);
  }

  lemma NoneIdeal<V>(k: Kernels<V>, d: Engine<V>, e: Engine<V>, frame: V)
    requires e == d.(gpu := e.gpu)
    ensures Ideal(k, e, frame, None) == Ideal(k, d, frame, None)
  {
  }

  // ---- what becomes of a frame ---------------------------------------------------------------------------

  /** The engine serves exactly the frames it is asked for with weights on the device or room to bring
      them there, all its buffers allocated and, in the tiled form, every channel count a multiple of 16. */
  predicate EngineServes<V>(e: Engine<V>, f: Faults) {
    && f.attempted && f.available
    && (e.gpu || (e.cpu.Some? && e.layers != [] && f.allocs.weights))
    && f.allocs.activations && f.allocs.tail
    && (e.tiled ==> forall i :: 0 <= i < |e.layers| ==> e.layers[i].outCh % 16 == 0)
  }

  lemma ServesIs<V>(e: Engine<V>, f: Faults)
    ensures Attempt(e, f).1 <==> EngineServes(e, f)
  {
    hide Dispatches, TailCommand;
    AcceptedAtMost(e.layers, e.tiled, 0);
  }

  /** The first step that fails is the one reported; a frame without a failure is served, by the engine
      or, where that could not, by the generic network, and then it is the network's picture of the
      frame. */
  lemma OutcomeIs<V>(k: Kernels<V>, m: Machine<V>, frame: V, f: Faults)
    ensures var r := FrameStep(k, m, frame, f).1;
      if !f.prepared then r == Failed(Preparation)
      else if !EngineServes(m.engine, f) && !f.extracted then r == Failed(Extraction)
      else if !f.outAllocated then r == Failed(OutputAllocation)
      else if !f.submitted then r == Failed(Submission)
      else if !f.downloaded then r == Failed(Download)
      else r.Served? && (r.bySrvgg <==> EngineServes(m.engine, f))
           && (!r.bySrvgg ==> r.frame == k.network(frame))
  {
    hide RunEngine, Execute;
    ServesIs(m.engine, f);
    if f.prepared && !EngineServes(m.engine, f) {
      var (e, served, recorded) := Attempt(m.engine, f);
      var memory := if e.gpu && !m.engine.gpu then m.memory.(weights := None) else m.memory;
      NetworkServes(k, memory, m.engine, f, frame);
    }
  }

  lemma NetworkServes<V>(k: Kernels<V>, m: Memory<V>, e: Engine<V>, f: Faults, frame: V)
    requires !Attempt(e, f).1
    ensures Execute(k, m, [Preprocess(frame)] + Attempt(e, f).2 + [Extract]).tail == k.network(frame)
  {
    hide Dispatches, TailCommand, RunEngine, Execute;
    var cs := Attempt(e, f).2;
    if f.attempted && f.available {
      RecordingIs(e, f.allocs);
      EngineKeeps(e, f.allocs);
      var g := RunEngine(e, f.allocs).0;
      var clone: seq<Command<V>> := if g.gpu && !e.gpu then [CloneWeights(e.cpu.value)] else [];
      var n: nat :| n <= |e.layers| && cs == clone + Dispatches(e.layers, e.tiled, n);
      HeadIs(k, m, frame, clone, if g.gpu && !e.gpu then e.cpu else m.weights);
      var head := [Preprocess(frame)] + clone;
      assert [Preprocess(frame)] + cs == head + Dispatches(e.layers, e.tiled, n);
      ExecuteAppend(k, m, head, Dispatches(e.layers, e.tiled, n));
      PingPong(k, Execute(k, m, head), e.layers, e.tiled, n);
    } else {
      HeadIs(k, m, frame, [], m.weights);
      assert [Preprocess(frame)] + [] == [Preprocess(frame)] + cs;
    }
    ExtractIs(k, m, [Preprocess(frame)] + cs);
  }

  lemma ExtractIs<V>(k: Kernels<V>, m: Memory<V>, cs: seq<Command<V>>)
    ensures Execute(k, m, cs + [Extract]).tail == k.network(Execute(k, m, cs).pre)
  {
    assert (cs + [Extract])[..|cs|] == cs;
  }
}

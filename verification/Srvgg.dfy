/** The hand-written SRVGG engine: what native/linux-host/srvgg-vulkan.cpp records, and how
    native/linux-host/gpu-frame.cpp submits it. */
module Srvgg {
  import opened Wrappers

  datatype Layer = Layer(inCh: int, outCh: int, wBase: int, bBase: int, sBase: int, hasPrelu: bool)

  // ---- device memory and commands ----------------------------------------------------------------

  datatype Buffer = Dummy | Preproc | ActA | ActB | TailOut

  /** `weights` is the content of the GPU copy, None before its transfer has run. */
  datatype Memory<!V> = Memory(dummy: V, pre: V, actA: V, actB: V, tail: V, weights: Option<V>)

  function Read<V>(m: Memory<V>, b: Buffer): V {
    match b
    case Dummy => m.dummy
    case Preproc => m.pre
    case ActA => m.actA
    case ActB => m.actB
    case TailOut => m.tail
  }

  function Write<V>(m: Memory<V>, b: Buffer, v: V): Memory<V> {
    match b
    case Dummy => m.(dummy := v)
    case Preproc => m.(pre := v)
    case ActA => m.(actA := v)
    case ActB => m.(actB := v)
    case TailOut => m.(tail := v)
  }

  /** Recorded work. The naive kernel has an fp32 and an fp16 input binding and picks by `isFirst`;
      the tail picks its body binding by `bodyIsFp16`. */
  datatype Command<!V> =
    | Preprocess(frame: V)
    | CloneWeights(data: V)
    | Conv(in32: Buffer, out: Buffer, in16: Buffer, layer: Layer, isFirst: bool)
    | ConvTiled(input: Buffer, out: Buffer, layer: Layer)
    | Tail(body32: Buffer, frame16: Buffer, out: Buffer, body16: Buffer, bodyIsFp16: bool)
    | Extract

  /** The shaders, about which nothing is known. */
  datatype Kernels<!V> = Kernels(
    conv: (Layer, V, Option<V>) -> V, convTiled: (Layer, V, Option<V>) -> V, tail: (V, V) -> V, network: V -> V)

  /** The activation buffers a dispatch reads. */
  function Reads<V>(c: Command<V>): set<Buffer> {
    match c
    case Preprocess(_) => {}
    case CloneWeights(_) => {}
    case Conv(in32, _, in16, _, isFirst) => {if isFirst then in16 else in32}
    case ConvTiled(input, _, _) => {input}
    case Tail(body32, frame, _, body16, fp16) => {if fp16 then body16 else body32, frame}
    case Extract => {Preproc}
  }

  function Writes<V>(c: Command<V>): set<Buffer> {
    match c
    case Preprocess(_) => {Preproc}
    case CloneWeights(_) => {}
    case Conv(_, out, _, _, _) => {out}
    case ConvTiled(_, out, _) => {out}
    case Tail(_, _, out, _, _) => {out}
    case Extract => {TailOut}
  }

  function Perform<V>(k: Kernels<V>, m: Memory<V>, c: Command<V>): Memory<V> {
    match c
    case Preprocess(frame) => m.(pre := frame)
    case CloneWeights(data) => m.(weights := Some(data))
    case Conv(in32, out, in16, layer, isFirst) =>
      Write(m, out, k.conv(layer, Read(m, if isFirst then in16 else in32), m.weights))
    case ConvTiled(input, out, layer) => Write(m, out, k.convTiled(layer, Read(m, input), m.weights))
    case Tail(body32, frame, out, body16, fp16) =>
      Write(m, out, k.tail(Read(m, if fp16 then body16 else body32), Read(m, frame)))
    case Extract => m.(tail := k.network(m.pre))
  }

  /** One submit runs the whole recording in order. */
  function Execute<V>(k: Kernels<V>, m: Memory<V>, commands: seq<Command<V>>): Memory<V> {
    if commands == [] then m
    else Perform(k, Execute(k, m, commands[..|commands| - 1]), commands[|commands| - 1])
  }

  // ---- the engine as a value -----------------------------------------------------------------------

  /** `gpu` is weightsGpu_ != null, set when the transfer is recorded. */
  datatype Engine<!V> = Engine(layers: seq<Layer>, cpu: Option<V>, gpu: bool, tiled: bool)

  /** Which of the frame's allocations succeed. */
  datatype Allocs = Allocs(weights: bool, activations: bool, tail: bool)

  function FlipAfter(n: nat): bool { n % 2 == 1 }

  function InOf(n: nat): Buffer { if n == 0 then Preproc else if FlipAfter(n) then ActB else ActA }

  function OutOf(n: nat): Buffer { if FlipAfter(n) then ActA else ActB }

  function BodyOf(n: nat): Buffer { if FlipAfter(n) then ActB else ActA }

  function DispatchAt<V>(layer: Layer, tiled: bool, n: nat): Command<V> {
    if tiled then ConvTiled(InOf(n), OutOf(n), layer)
    else Conv(if n == 0 then Dummy else InOf(n), OutOf(n), if n == 0 then InOf(0) else Dummy, layer, n == 0)
  }

  /** The first `n` dispatches. */
  function Dispatches<V>(layers: seq<Layer>, tiled: bool, n: nat): (cs: seq<Command<V>>)
    requires n <= |layers|
    ensures |cs| == n
  {
    if n == 0 then [] else Dispatches(layers, tiled, n - 1) + [DispatchAt(layers[n - 1], tiled, n - 1)]
  }

  function TailCommand<V>(n: nat, tiled: bool): Command<V> {
    if tiled then Tail(Dummy, Preproc, TailOut, BodyOf(n), true) else Tail(BodyOf(n), Preproc, TailOut, Dummy, false)
  }

  /** Layers recorded before the tiled path refuses one. */
  function Accepted(layers: seq<Layer>, tiled: bool, n: nat): nat
    requires n <= |layers|
    decreases |layers| - n
  {
    if n < |layers| && !(tiled && layers[n].outCh % 16 != 0) then Accepted(layers, tiled, n + 1) else n
  }

  function UploadWeights<V>(e: Engine<V>, room: bool): (Engine<V>, bool, seq<Command<V>>) {
    if e.gpu then (e, true, [])
    else if e.cpu.None? || e.layers == [] || !room then (e, false, [])
    else (e.(gpu := true), true, [CloneWeights(e.cpu.value)])
  }

  /** run and runTiled: the engine, whether the frame is served, and what was recorded. */
  function RunEngine<V>(e: Engine<V>, a: Allocs): (Engine<V>, bool, seq<Command<V>>) {
    var (f, uploaded, clone) := UploadWeights(e, a.weights);
    if !uploaded || !a.activations then (f, false, clone)
    else
      var n := Accepted(e.layers, e.tiled, 0);
      AcceptedAtMost(e.layers, e.tiled, 0);
      var convs := clone + Dispatches(e.layers, e.tiled, n);
      if n < |e.layers| || !a.tail then (f, false, convs)
      else (f, true, convs + [TailCommand(n, e.tiled)])
  }

  lemma {:induction false} AcceptedAtMost(layers: seq<Layer>, tiled: bool, n: nat)
    requires n <= |layers|
    ensures n <= Accepted(layers, tiled, n) <= |layers|
    ensures forall i :: n <= i < Accepted(layers, tiled, n) ==> !(tiled && layers[i].outCh % 16 != 0)
    ensures Accepted(layers, tiled, n) < |layers| ==> tiled && layers[Accepted(layers, tiled, n)].outCh % 16 != 0
    decreases |layers| - n
  {
    if n < |layers| && !(tiled && layers[n].outCh % 16 != 0) { AcceptedAtMost(layers, tiled, n + 1); }
  }

  // ---- the frame ---------------------------------------------------------------------------------------

  /** What happens to one frame: whether everything before the engine succeeds, whether the engine is
      asked for and available, and the outcome of each later step. */
  datatype Faults = Faults(prepared: bool, attempted: bool, available: bool, allocs: Allocs,
                           extracted: bool, outAllocated: bool, submitted: bool, downloaded: bool)

  datatype Stage = Preparation | Extraction | OutputAllocation | Submission | Download

  datatype Result<!V> = Failed(stage: Stage) | Served(frame: V, bySrvgg: bool)

  datatype Machine<!V> = Machine(engine: Engine<V>, memory: Memory<V>)

  /** The engine's part of the recording. */
  function Attempt<V>(e: Engine<V>, f: Faults): (Engine<V>, bool, seq<Command<V>>) {
    if f.attempted && f.available then RunEngine(e, f.allocs) else (e, false, [])
  }

  function FrameStep<V>(k: Kernels<V>, m: Machine<V>, frame: V, f: Faults): (Machine<V>, Result<V>) {
    if !f.prepared then (m, Failed(Preparation)) else
    var (e, served, recorded) := Attempt(m.engine, f);
    // A weights buffer just allocated holds nothing yet.
    var memory := if e.gpu && !m.engine.gpu then m.memory.(weights := None) else m.memory;
    if !served && !f.extracted then (Machine(e, memory), Failed(Extraction))
    else if !f.outAllocated then (Machine(e, memory), Failed(OutputAllocation))
    else if !f.submitted then
      (Machine(if f.attempted then e.(gpu := false) else e, memory), Failed(Submission))
    else
      var commands := [Preprocess(frame)] + recorded + if served then [] else [Extract];
      var after := Execute(k, memory, commands);
      (Machine(e, after), if f.downloaded then Served(after.tail, served) else Failed(Download))
  }

  // ---- the classes ----------------------------------------------------------------------------------------

  /** One VkCompute per frame. */
  class Recorder<V> {
    var commands: seq<Command<V>>

    constructor ()
      ensures commands == []
    {
      commands := [];
    }
  }

  class SrvggVulkan<V> {
    var layers: seq<Layer>
    var weightsCpu: Option<V>
    var weightsGpu: bool
    var useTiled: bool

    ghost function State(): Engine<V>
      reads this
    {
      Engine(layers, weightsCpu, weightsGpu, useTiled)
    }

    constructor (layers: seq<Layer>, weights: Option<V>, tiled: bool)
      ensures State() == Engine(layers, weights, false, tiled)
    {
      this.layers, weightsCpu, weightsGpu, useTiled := layers, weights, false, tiled;
    }

    method RecordUpload(cmd: Recorder<V>, room: bool) returns (ok: bool)
      modifies this`weightsGpu, cmd
      ensures var (e, r, cs) := UploadWeights(old(State()), room);
        State() == e && ok == r && cmd.commands == old(cmd.commands) + cs
    {
      if weightsGpu {
        return true;
      }
      if weightsCpu.None? || layers == [] {
        return false;
      }
      weightsGpu := true;
      if !room {
        weightsGpu := false;
        return false;
      }
      cmd.commands := cmd.commands + [CloneWeights(weightsCpu.value)];
      return true;
    }

    method InvalidateGpuWeights()
      modifies this`weightsGpu
      ensures State() == old(State()).(gpu := false)
    {
      weightsGpu := false;
    }

    /** The ping-pong loop. */
    method RecordLayers(cmd: Recorder<V>) returns (ok: bool, body: Buffer)
      modifies cmd
      ensures ok <==> Accepted(layers, useTiled, 0) == |layers|
      ensures Accepted(layers, useTiled, 0) <= |layers|
      ensures cmd.commands == old(cmd.commands) + Dispatches(layers, useTiled, Accepted(layers, useTiled, 0))
      ensures ok ==> body == BodyOf(|layers|)
    {
      var flip := false;
      var li := 0;
      while li < |layers|
        invariant 0 <= li <= |layers| && flip == FlipAfter(li)
        invariant Accepted(layers, useTiled, 0) == Accepted(layers, useTiled, li)
        invariant cmd.commands == old(cmd.commands) + Dispatches(layers, useTiled, li)
      {
        var layer := layers[li];
        var first := li == 0;
        if useTiled && layer.outCh % 16 != 0 {
          return false, Dummy;
        }
        var input := if first then Preproc else if flip then ActB else ActA;
        var output := if flip then ActA else ActB;
        var dispatch := if useTiled then ConvTiled(input, output, layer)
        else Conv(if first then Dummy else input, output, if first then input else Dummy, layer, first);
        cmd.commands := cmd.commands + [dispatch];
        flip := !flip;
        li := li + 1;
      }
      return true, if flip then ActB else ActA;
    }

    method Run(cmd: Recorder<V>, a: Allocs) returns (ok: bool)
      modifies this`weightsGpu, cmd
      ensures var (e, r, cs) := RunEngine(old(State()), a);
        State() == e && ok == r && cmd.commands == old(cmd.commands) + cs
    {
      ghost var before := State();
      ghost var start := cmd.commands;
      ok := RecordUpload(cmd, a.weights);
      if !ok || !a.activations {
        return false;
      }
      ghost var clone := UploadWeights(before, a.weights).2;
      AcceptedAtMost(layers, useTiled, 0);
      var accepted, body := RecordLayers(cmd);
      assert cmd.commands == start + (clone + Dispatches(layers, useTiled, Accepted(layers, useTiled, 0)));
      if !accepted || !a.tail {
        return false;
      }
      var tail := if useTiled then Tail(Dummy, Preproc, TailOut, body, true)
      else Tail(body, Preproc, TailOut, Dummy, false);
      cmd.commands := cmd.commands + [tail];
      return true;
    }
  }

  class GpuRuntime<V> {
    const srvgg: SrvggVulkan<V>
    const kernels: Kernels<V>
    var memory: Memory<V>

    ghost function State(): Machine<V>
      reads this, srvgg
    {
      Machine(srvgg.State(), memory)
    }

    constructor (srvgg: SrvggVulkan<V>, kernels: Kernels<V>, memory: Memory<V>)
      ensures this.srvgg == srvgg && this.kernels == kernels && this.memory == memory
    {
      this.srvgg, this.kernels, this.memory := srvgg, kernels, memory;
    }

    method RunGpuFrame(frame: V, f: Faults) returns (r: Result<V>)
      modifies this`memory, srvgg`weightsGpu
      ensures (State(), r) == FrameStep(kernels, old(State()), frame, f)
    {
      ghost var before := State();
      var cmd := new Recorder<V>();
      if !f.prepared {
        return Failed(Preparation);
      }
      cmd.commands := [Preprocess(frame)];
      var served, attempted := false, false;
      if f.attempted {
        attempted := true;
        if f.available {
          var hadWeights := srvgg.weightsGpu;
          served := srvgg.Run(cmd, f.allocs);
          if srvgg.weightsGpu && !hadWeights {
            memory := memory.(weights := None);
          }
        }
      }
      ghost var recorded := Attempt(before.engine, f).2;
      assert cmd.commands == [Preprocess(frame)] + recorded;
      if !served {
        if !f.extracted {
          return Failed(Extraction);
        }
        cmd.commands := cmd.commands + [Extract];
      }
      if !f.outAllocated {
        return Failed(OutputAllocation);
      }
      if !f.submitted {
        if attempted {
          srvgg.InvalidateGpuWeights();
        }
        return Failed(Submission);
      }
      assert cmd.commands == [Preprocess(frame)] + recorded + if served then [] else [Extract];
      memory := Execute(kernels, memory, cmd.commands);
      return if f.downloaded then Served(memory.tail, served) else Failed(Download);
    }
  }
}

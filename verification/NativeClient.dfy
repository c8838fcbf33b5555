/** The native inference client, src/core/realesrgan-native-vulkan-client.ts: its backpressure
    gate, its rotating upload buffers and its pixel packing. */
module NativeClient {
  import opened Wrappers
  import opened Frames

  const MAX_IN_FLIGHT := 8

  // ---- the gate as a value ----------------------------------------------------------------------

  datatype Gate = Gate(inFlight: int, waiters: seq<int>, disposed: bool)

  datatype Entry = Parks | Throws | Enters

  /** One pass of withSlot's wait loop and, if it falls through, what follows it. */
  function Enter(g: Gate, caller: int): (Gate, Entry) {
    if g.inFlight >= MAX_IN_FLIGHT && !g.disposed then (g.(waiters := g.waiters + [caller]), Parks)
    else if g.disposed then (g, Throws)
    else (g.(inFlight := g.inFlight + 1), Enters)
  }

  /** The finally block: give the slot back, wake the first waiter. */
  function Leave(g: Gate): (Gate, Option<int>) {
    var h := g.(inFlight := g.inFlight - 1);
    if g.waiters == [] then (h, None) else (h.(waiters := g.waiters[1..]), Some(g.waiters[0]))
  }

  // ---- upload staging as a value ------------------------------------------------------------------

  /** A buffer is named by the claim that allocated it. */
  datatype Buffer = Buffer(name: nat, byteLength: nat)

  /** `lengths` are the byte lengths of all claims so far; `writer` says whose bytes a buffer holds. */
  datatype Uploads = Uploads(slot: nat, buffers: seq<Option<Buffer>>, lengths: seq<nat>, writer: map<nat, nat>)

  /** claimUploadBuffer and the copy of the caller's bytes. */
  function ClaimAndFill(u: Uploads, byteLength: nat): (Uploads, Buffer)
    requires |u.buffers| == MAX_IN_FLIGHT
  {
    var slot, claim := (u.slot + 1) % MAX_IN_FLIGHT, |u.lengths|;
    var held := u.buffers[slot];
    var buffer := if held.Some? && held.value.byteLength == byteLength then held.value else Buffer(claim, byteLength);
    (Uploads(slot, u.buffers[slot := Some(buffer)], u.lengths + [byteLength], u.writer[buffer.name := claim]), buffer)
  }

  // ---- the class ------------------------------------------------------------------------------------

  class RealEsrganNativeVulkanClient {
    var inFlight: int
    var waiters: seq<int>
    var disposed: bool
    var uploadBuffers: seq<array?<Byte>>
    var uploadSlot: nat

    ghost predicate Valid()
      reads this
    {
      |uploadBuffers| == MAX_IN_FLIGHT
    }

    ghost function State(): Gate
      reads this
    {
      Gate(inFlight, waiters, disposed)
    }

    constructor ()
      ensures Valid() && State() == Gate(0, [], false) && uploadSlot == 0
      ensures forall k :: 0 <= k < MAX_IN_FLIGHT ==> uploadBuffers[k] == null
    {
      inFlight, waiters, disposed := 0, [], false;
      uploadBuffers, uploadSlot := seq(MAX_IN_FLIGHT, _ => null), 0;
    }

    method TryEnter(caller: int) returns (r: Entry)
      modifies this`inFlight, this`waiters
      ensures (State(), r) == Enter(old(State()), caller)
    {
      if inFlight >= MAX_IN_FLIGHT && !disposed {
        waiters := waiters + [caller];
        return Parks;
      }
      if disposed {
        return Throws;
      }
      inFlight := inFlight + 1;
      return Enters;
    }

    method LeaveSlot() returns (next: Option<int>)
      modifies this`inFlight, this`waiters
      ensures (State(), next) == Leave(old(State()))
    {
      inFlight := inFlight - 1;
      next := None;
      if |waiters| > 0 {
        next := Some(waiters[0]);
        waiters := waiters[1..];
      }
    }

    /** Wakes everyone parked, in order. */
    method Dispose() returns (woken: seq<int>)
      modifies this`disposed, this`waiters
      ensures State() == Gate(old(inFlight), [], true) && woken == old(waiters)
    {
      disposed := true;
      woken := [];
      while |waiters| > 0
        invariant inFlight == old(inFlight) && disposed && woken + waiters == old(waiters)
        decreases |waiters|
      {
        woken := woken + [waiters[0]];
        waiters := waiters[1..];
      }
    }

    /** The buffer of the next slot if it has the right size, else a new one in its place; filled
        with the caller's bytes. No other slot changes. */
    method ClaimUploadBuffer(data: seq<Byte>) returns (buffer: array<Byte>)
      requires Valid()
      modifies this`uploadSlot, this`uploadBuffers, uploadBuffers[(uploadSlot + 1) % MAX_IN_FLIGHT]
      ensures Valid() && uploadSlot == (old(uploadSlot) + 1) % MAX_IN_FLIGHT
      ensures uploadBuffers == old(uploadBuffers)[uploadSlot := buffer] && buffer[..] == data
      ensures var held := old(uploadBuffers)[uploadSlot];
        if held != null && held.Length == |data| then buffer == held else fresh(buffer)
    {
      uploadSlot := (uploadSlot + 1) % MAX_IN_FLIGHT;
      var held := uploadBuffers[uploadSlot];
      if held == null || held.Length != |data| {
        buffer := new Byte[|data|];
        uploadBuffers := uploadBuffers[uploadSlot := buffer];
      } else {
        buffer := held;
      }
      forall i | 0 <= i < |data| {
        buffer[i] := data[i];
      }
      assert buffer[..] == data;
    }
  }

  // ---- packing ----------------------------------------------------------------------------------------

  /** clamp, scale, add a half, truncate. */
  function PackByte(v: real): (b: Byte)
  {
    var c := if v <= 0.0 then 0.0 else if v >= 1.0 then 1.0 else v;
    (c * 255.0 + 0.5).Floor
  }

  /** Pixel k of the output, byte by byte. */
  ghost predicate Packed(out: array<Byte>, planar: array<real>, pixels: nat, k: nat)
    requires planar.Length == 3 * pixels && out.Length == 4 * pixels && k < pixels
    reads out, planar
  {
    && out[4 * k] == PackByte(planar[k]) && out[4 * k + 1] == PackByte(planar[k + pixels])
    && out[4 * k + 2] == PackByte(planar[k + pixels * 2]) && out[4 * k + 3] == 255
  }

  method PlanarToRgba(planar: array<real>, pixels: nat) returns (out: array<Byte>)
    requires planar.Length == 3 * pixels
    ensures fresh(out) && out.Length == 4 * pixels
    ensures forall i :: 0 <= i < pixels ==>
      out[4 * i..4 * i + 4] == [PackByte(planar[i]), PackByte(planar[i + pixels]), PackByte(planar[i + pixels * 2]), 255]
  {
    out := new Byte[pixels * 4];
    var i := 0;
    while i < pixels
      invariant 0 <= i <= pixels
      invariant forall k :: 0 <= k < i ==> Packed(out, planar, pixels, k)
    {
      hide PackByte;
      label Before:
      var o := i * 4;
      out[o] := PackByte(planar[i]);
      out[o + 1] := PackByte(planar[i + pixels]);
      out[o + 2] := PackByte(planar[i + pixels * 2]);
      out[o + 3] := 255;
      forall k | 0 <= k <= i ensures Packed(out, planar, pixels, k) {
        assert k < i ==> old@Before(Packed(out, planar, pixels, k));
      }
      i := i + 1;
    }
    hide PackByte;
    forall k | 0 <= k < pixels
      ensures out[4 * k..4 * k + 4] == [PackByte(planar[k]), PackByte(planar[k + pixels]), PackByte(planar[k + pixels * 2]), 255]
    {
      assert Packed(out, planar, pixels, k);
    }
  }

  /** A byte unpacked to the unit interval packs to itself, which is what lets the tight-RGBA
      path skip the planar form; and packing is monotone, with every value going to a nearest byte. */
  lemma PackingIsNearest(v: real, w: real, b: Byte)
    ensures PackByte(b as real / 255.0) == b
    ensures v <= w ==> PackByte(v) <= PackByte(w)
    ensures 0.0 <= v <= 1.0 ==> -0.5 <= v * 255.0 - PackByte(v) as real <= 0.5
  {
    assert b as real / 255.0 * 255.0 == b as real;
  }
}

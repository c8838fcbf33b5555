/** The output texture and its letterbox bars: src/core/realesrgan-output-writer.ts, with the
    paste decision of src/shared/realesrgan-frame-decision.ts. */
module OutputWriter {
  import opened Arith
  import opened Wrappers
  import opened Frames

  const FATAL_INFERENCE_FAILURES := 4
  const COMPOSER_FAILURES := 3
  /** The copy alignment of 256 bytes, in pixels. */
  const ROW_ALIGNMENT := 64

  type Texture = seq<seq<Rgba8>>

  datatype Rect = Rect(x: int, y: int, w: int, h: int)

  datatype Config = Config(outW: nat, outH: nat, inferW: nat, inferH: nat)

  predicate Sized(t: Texture, c: Config) { |t| == c.outH && forall j :: 0 <= j < |t| ==> |t[j]| == c.outW }

  predicate Inside(r: Rect, i: int, j: int) { r.x <= i < r.x + r.w && r.y <= j < r.y + r.h }

  predicate FitsIn(r: Rect, c: Config) {
    0 <= r.x && 0 <= r.y && 0 <= r.w && 0 <= r.h && r.x + r.w <= c.outW && r.y + r.h <= c.outH
  }

  /** A pixel of a buffer with rows of `stride`. */
  function Texel(px: seq<Rgba8>, stride: int, i: int, j: int): Rgba8 {
    var k := Pos(stride, i, j);
    if 0 <= k < |px| then px[k] else OPAQUE_BLACK
  }

  function At(t: Texture, i: int, j: int): Rgba8 {
    if 0 <= j < |t| && 0 <= i < |t[j]| then t[j][i] else OPAQUE_BLACK
  }

  /** The texture with a rectangle replaced from a buffer. */
  function Paint(t: Texture, r: Rect, px: seq<Rgba8>, stride: int): (p: Texture)
    ensures |p| == |t| && forall j :: 0 <= j < |t| ==> |p[j]| == |t[j]|
    ensures forall i, j :: At(p, i, j) == (if 0 <= j < |t| && 0 <= i < |t[j]| && Inside(r, i, j)
                                           then Texel(px, stride, i - r.x, j - r.y) else At(t, i, j))
  {
    seq(|t|, j requires 0 <= j < |t| =>
      seq(|t[j]|, i requires 0 <= i < |t[j]| => if Inside(r, i, j) then Texel(px, stride, i - r.x, j - r.y) else t[j][i]))
  }

  lemma SamePaint(t: Texture, r: Rect, a: seq<Rgba8>, p: int, b: seq<Rgba8>, q: int)
    requires forall i, j :: 0 <= i < r.w && 0 <= j < r.h ==> Texel(a, p, i, j) == Texel(b, q, i, j)
    ensures Paint(t, r, a, p) == Paint(t, r, b, q)
  {
    forall j | 0 <= j < |t|
      ensures Paint(t, r, a, p)[j] == Paint(t, r, b, q)[j]
    {
      forall i | 0 <= i < |t[j]|
        ensures Paint(t, r, a, p)[j][i] == Paint(t, r, b, q)[j][i]
      {
        assert Inside(r, i, j) ==> Texel(a, p, i - r.x, j - r.y) == Texel(b, q, i - r.x, j - r.y);
      }
    }
  }

  lemma PaintNothing(t: Texture, r: Rect, px: seq<Rgba8>, stride: int)
    requires r.h == 0
    ensures Paint(t, r, px, stride) == t
  {
    forall j | 0 <= j < |t|
      ensures Paint(t, r, px, stride)[j] == t[j]
    {
    }
  }

  /** Texture writes out of range fail validation and change nothing. */
  function Written(t: Texture, c: Config, r: Rect, px: seq<Rgba8>, stride: int): Texture {
    if FitsIn(r, c) then Paint(t, r, px, stride) else t
  }

  // ---- where a crop lands ------------------------------------------------------------------------

  /** Math.round of a / b. */
  function RoundHalfUp(a: int, b: int): int
    requires 0 < b
  {
    (2 * a + b) / (2 * b)
  }

  datatype Decision = Unfit | Skip | Paste(ox: int, oy: int)

  function DecideCropPaste(crop: Rect, c: Config, w: int, h: int): Decision
    requires 0 < c.inferW && 0 < c.inferH
  {
    var ox, oy := RoundHalfUp(c.outW * crop.x, c.inferW), RoundHalfUp(c.outH * crop.y, c.inferH);
    if ox < 0 || oy < 0 then Unfit
    else
      var overX, overY := ox + w - c.outW, oy + h - c.outH;
      if overX > 2 || overY > 2 then Skip
      else Paste(if overX > 0 then ox - overX else ox, if overY > 0 then oy - overY else oy)
  }

  /** A granted paste lies inside the output exactly if the result is no larger than it; one or
      two pixels of excess are shifted to a negative origin instead. */
  lemma PasteFitsIff(crop: Rect, c: Config, w: nat, h: nat)
    requires 0 < c.inferW && 0 < c.inferH && DecideCropPaste(crop, c, w, h).Paste?
    ensures var d := DecideCropPaste(crop, c, w, h);
      FitsIn(Rect(d.ox, d.oy, w, h), c) <==> w <= c.outW && h <= c.outH
  {
  }

  // ---- the bars ------------------------------------------------------------------------------------

  function Bars(c: Config, p: Rect): (bars: seq<Rect>)
    ensures |bars| == 4
  {
    [Rect(0, 0, c.outW, p.y), Rect(0, p.y + p.h, c.outW, c.outH - p.y - p.h),
     Rect(0, p.y, p.x, p.h), Rect(p.x + p.w, p.y, c.outW - p.x - p.w, p.h)]
  }

  function Count(b: bool): int { if b then 1 else 0 }

  /** The four bars and the paste tile the output: every pixel is in exactly one of the five, and
      no bar reaches beyond the output. */
  lemma BarsTileTheOutput(c: Config, p: Rect, i: int, j: int)
    requires FitsIn(p, c) && 0 <= i < c.outW && 0 <= j < c.outH
    ensures Count(Inside(p, i, j)) + Count(Inside(Bars(c, p)[0], i, j)) + Count(Inside(Bars(c, p)[1], i, j))
            + Count(Inside(Bars(c, p)[2], i, j)) + Count(Inside(Bars(c, p)[3], i, j)) == 1
    ensures forall k :: 0 <= k < 4 ==> FitsIn(Bars(c, p)[k], c)
  {
  }

  function Blacks(n: nat): (b: seq<Rgba8>)
    ensures |b| == n && forall k :: 0 <= k < n ==> b[k] == OPAQUE_BLACK
  {
    seq(n, _ => OPAQUE_BLACK)
  }

  function Blacken(t: Texture, c: Config, r: Rect): Texture {
    if r.w <= 0 || r.h <= 0 then t else Written(t, c, r, [], r.w)
  }

  function FillBars(t: Texture, c: Config, p: Rect): Texture {
    var b := Bars(c, p);
    Blacken(Blacken(Blacken(Blacken(t, c, b[0]), c, b[1]), c, b[2]), c, b[3])
  }

  /** Opaque black everywhere outside `p`. */
  ghost predicate BlackOutside(t: Texture, c: Config, p: Rect) {
    forall i, j :: 0 <= i < c.outW && 0 <= j < c.outH && !Inside(p, i, j) ==> At(t, i, j) == Rgba8(0, 0, 0, 255)
  }

  lemma BlackenIs(t: Texture, c: Config, r: Rect)
    requires Sized(t, c) && FitsIn(r, c)
    ensures Sized(Blacken(t, c, r), c)
    ensures forall i, j :: At(Blacken(t, c, r), i, j) == if Inside(r, i, j) then OPAQUE_BLACK else At(t, i, j)
  {
  }

  lemma FillBarsIs(t: Texture, c: Config, p: Rect)
    requires Sized(t, c) && FitsIn(p, c)
    ensures Sized(FillBars(t, c, p), c) && BlackOutside(FillBars(t, c, p), c, p)
    ensures forall i, j :: Inside(p, i, j) ==> At(FillBars(t, c, p), i, j) == At(t, i, j)
  {
    hide Blacken;
    var b := Bars(c, p);
    var t0 := Blacken(t, c, b[0]);
    var t1 := Blacken(t0, c, b[1]);
    var t2 := Blacken(t1, c, b[2]);
    BlackenIs(t, c, b[0]);
    BlackenIs(t0, c, b[1]);
    BlackenIs(t1, c, b[2]);
    BlackenIs(t2, c, b[3]);
  }

  // ---- the writer as a value -----------------------------------------------------------------------

  /** `key` is the crop the bars were last filled for. */
  datatype Screen = Screen(texture: Texture, key: Option<Rect>, skips: nat, failures: nat, composer: bool)

  datatype Outcome = Presented | Skipped | Threw

  function WriteRgba(s: Screen, c: Config, px: seq<Rgba8>, w: nat, h: nat): Screen {
    s.(texture := Written(s.texture, c, Rect(0, 0, w, h), px, w), key := None, skips := 0)
  }

  /** The source coordinate an output coordinate is taken from. */
  function Nearest(k: nat, size: nat, out: nat): int
    requires 0 < out
  {
    var n := k * size / out;
    if n < size - 1 then n else size - 1
  }

  /** The nearest-neighbour stretch of a w x h frame into the output geometry. */
  function Stretched(px: seq<Rgba8>, w: nat, h: nat, c: Config): (r: seq<Rgba8>)
    ensures |r| == c.outW * c.outH
  {
    if c.outW == 0 then []
    else
      seq(c.outW * c.outH, k requires 0 <= k < c.outW * c.outH =>
        assert 0 < c.outH; Texel(px, w, Nearest(k % c.outW, w, c.outW), Nearest(k / c.outW, h, c.outH)))
  }

  /** The stretch takes the source pixel under the output pixel's left edge, inside the frame; the clamp
      to the last pixel never decides. */
  lemma NearestIs(k: nat, size: nat, out: nat)
    requires 0 < size && k < out
    ensures var n := Nearest(k, size, out); 0 <= n < size && n * out <= k * size < n * out + out
  {
    var p := k * size;
    var n := p / out;
    assert p == n * out + p % out;
    MulStrict(k, out, size);
    MulMonoIf(size, n, out);
  }

  /** It keeps the order of pixels, and a frame of the output's size as it is. */
  lemma NearestKeepsOrder(k: nat, l: nat, size: nat, out: nat)
    requires 0 < size && k <= l < out
    ensures Nearest(k, size, out) <= Nearest(l, size, out)
    ensures size == out ==> Nearest(k, size, out) == k
  {
    hide Nearest;
    NearestIs(k, size, out);
    NearestIs(l, size, out);
    MulMono(k, l, size);
    CellOrder(Nearest(k, size, out), Nearest(l, size, out), k * size, l * size, out);
    if size == out { NearestSame(k, size); }
  }

  lemma CellOrder(n: int, m: int, a: int, b: int, out: int)
    requires 0 < out && a <= b && n * out <= a && b < m * out + out
    ensures n <= m
  {
    MulMonoIf(m + 1, n, out);
    assert (m + 1) * out == m * out + out;
  }

  lemma NearestSame(k: nat, size: nat)
    requires k < size
    ensures Nearest(k, size, size) == k
  {
    DivModUnique(k * size, size, k, 0);
  }

  /** A full frame of w x h pixels from the session. */
  function WriteFull(s: Screen, c: Config, px: seq<Rgba8>, w: nat, h: nat): Screen {
    var drawn := if w == c.outW && h == c.outH then px else Stretched(px, w, h, c);
    s.(texture := Written(s.texture, c, Rect(0, 0, c.outW, c.outH), drawn, c.outW), key := None)
  }

  datatype Gpu = Handles(w: nat, h: nat, px: seq<Rgba8>) | Declines | Fails

  /** The GPU branch leaves the key as it is. */
  function WriteComposed(s: Screen, c: Config, gpu: Gpu, px: seq<Rgba8>, width: nat, height: nat): Screen {
    if !s.composer then WriteFull(s, c, px, width, height) else
    match gpu
    case Handles(w, h, drawn) => s.(texture := Written(s.texture, c, Rect(0, 0, w, h), drawn, w), failures := 0)
    case Declines => WriteFull(s, c, px, width, height)
    case Fails =>
      var n := s.failures + 1;
      WriteFull(s.(failures := n, composer := n < COMPOSER_FAILURES), c, px, width, height)
  }

  function PresentCropped(s: Screen, c: Config, px: seq<Rgba8>, w: nat, h: nat, crop: Rect, tw: nat, th: nat): (Screen, Outcome)
    requires 0 < c.inferW && 0 < c.inferH
  {
    var rw, rh := if tw > 0 && th > 0 then tw else w, if tw > 0 && th > 0 then th else h;
    if w != rw || h != rh then (s, Threw)
    else
      match DecideCropPaste(crop, c, rw, rh)
      case Unfit => (s, Threw)
      case Skip => (s.(skips := s.skips + 1), if s.skips + 1 >= FATAL_INFERENCE_FAILURES then Threw else Skipped)
      case Paste(ox, oy) =>
        var p := Rect(ox, oy, rw, rh);
        var t := s.(skips := 0);
        if ox < 0 || oy < 0 then (t, Threw)
        else
          var pasted := t.(texture := Written(t.texture, c, p, px, w));
          (if s.key == Some(crop) then pasted
           else pasted.(texture := FillBars(pasted.texture, c, p), key := Some(crop)), Presented)
  }

  lemma StretchedAt(px: seq<Rgba8>, w: nat, h: nat, c: Config, x: nat, y: nat)
    requires x < c.outW && y < c.outH
    ensures y * c.outW + x < c.outW * c.outH
    ensures Stretched(px, w, h, c)[y * c.outW + x] == Texel(px, w, Nearest(x, w, c.outW), Nearest(y, h, c.outH))
  {
    hide Nearest;
    MulStrict(y, c.outH, c.outW);
    var k := y * c.outW + x;
    DivModUnique(k, c.outW, y, x);
    assert k < c.outW * c.outH;
  }

  // ---- the class --------------------------------------------------------------------------------------

  class RealEsrganOutputWriter {
    const config: Config
    var texture: Texture
    var cropBarsKey: Option<Rect>
    var consecutiveCropSkips: nat
    var gpuComposeFailures: nat
    var composer: bool

    ghost function State(): Screen
      reads this
    {
      Screen(texture, cropBarsKey, consecutiveCropSkips, gpuComposeFailures, composer)
    }

    constructor (config: Config, blank: Texture, composer: bool)
      ensures this.config == config && State() == Screen(blank, None, 0, 0, composer)
    {
      this.config := config;
      texture, cropBarsKey, consecutiveCropSkips, gpuComposeFailures := blank, None, 0, 0;
      this.composer := composer;
    }

    /** queue.writeTexture, row by row. */
    method WriteTexture(data: seq<Rgba8>, stride: nat, r: Rect)
      requires Sized(texture, config)
      modifies this`texture
      ensures texture == Written(old(texture), config, r, data, stride) && Sized(texture, config)
    {
      if !FitsIn(r, config) {
        return;
      }
      ghost var before := texture;
      PaintNothing(before, Rect(r.x, r.y, r.w, 0), data, stride);
      var row := 0;
      while row < r.h
        invariant 0 <= row <= r.h
        invariant texture == Paint(before, Rect(r.x, r.y, r.w, row), data, stride)
      {
        var line := texture[r.y + row];
        var copied := seq(r.w, i => Texel(data, stride, i, row));
        texture := texture[r.y + row := line[..r.x] + copied + line[r.x + r.w..]];
        PaintRow(before, r, data, stride, row, texture);
        row := row + 1;
      }
    }

    lemma PaintRow(before: Texture, r: Rect, data: seq<Rgba8>, stride: nat, row: nat, after: Texture)
      requires Sized(before, config) && FitsIn(r, config) && row < r.h
      requires var t := Paint(before, Rect(r.x, r.y, r.w, row), data, stride);
        after == t[r.y + row := t[r.y + row][..r.x] + seq(r.w, i => Texel(data, stride, i, row)) + t[r.y + row][r.x + r.w..]]
      ensures after == Paint(before, Rect(r.x, r.y, r.w, row + 1), data, stride)
    {
      var p := Paint(before, Rect(r.x, r.y, r.w, row + 1), data, stride);
      forall j | 0 <= j < |p|
        ensures p[j] == after[j]
      {
      }
    }

    /** Rows are padded to the copy alignment when the tight width is not aligned. */
    method WriteRgbaSubview(rgba: seq<Rgba8>, width: nat, height: nat, ox: nat, oy: nat)
      requires Sized(texture, config) && |rgba| == width * height
      modifies this`texture
      ensures texture == Written(old(texture), config, Rect(ox, oy, width, height), rgba, width) && Sized(texture, config)
    {
      var stride := (width + ROW_ALIGNMENT - 1) / ROW_ALIGNMENT * ROW_ALIGNMENT;
      if stride == width {
        WriteTexture(rgba, width, Rect(ox, oy, width, height));
        return;
      }
      var padded := PadRows(rgba, width, height, stride);
      WriteTexture(padded, stride, Rect(ox, oy, width, height));
      SamePaint(old(texture), Rect(ox, oy, width, height), padded, stride, rgba, width);
    }

    static method PadRows(rgba: seq<Rgba8>, width: nat, height: nat, stride: nat) returns (padded: seq<Rgba8>)
      requires |rgba| == width * height && width <= stride
      ensures forall i, j :: 0 <= i < width && 0 <= j < height ==> Texel(padded, stride, i, j) == Texel(rgba, width, i, j)
    {
      padded := [];
      var row := 0;
      while row < height
        invariant 0 <= row <= height && |padded| == row * stride
        invariant forall i, j :: 0 <= i < width && 0 <= j < row ==> Texel(padded, stride, i, j) == Texel(rgba, width, i, j)
      {
        PadRow(rgba, width, height, stride, padded, row);
        padded := padded + rgba[row * width..row * width + width] + Blacks(stride - width);
        row := row + 1;
      }
    }

    static lemma PadRow(rgba: seq<Rgba8>, width: nat, height: nat, stride: nat, padded: seq<Rgba8>, row: nat)
      requires |rgba| == width * height && width <= stride && row < height && |padded| == row * stride
      requires forall i, j :: 0 <= i < width && 0 <= j < row ==> Texel(padded, stride, i, j) == Texel(rgba, width, i, j)
      ensures row * width + width <= |rgba|
      ensures var next := padded + rgba[row * width..row * width + width] + Blacks(stride - width);
        |next| == (row + 1) * stride
        && forall i, j :: 0 <= i < width && 0 <= j < row + 1 ==> Texel(next, stride, i, j) == Texel(rgba, width, i, j)
    {
      MulStrict(row, height, width);
      var next := padded + rgba[row * width..row * width + width] + Blacks(stride - width);
      assert |next| == (row + 1) * stride;
      forall i, j | 0 <= i < width && 0 <= j < row + 1
        ensures Texel(next, stride, i, j) == Texel(rgba, width, i, j)
      {
        PosInRange(width, height, i, j);
        if j < row {
          PosInRange(stride, row, i, j);
          assert Texel(padded, stride, i, j) == Texel(rgba, width, i, j);
        } else {
          assert Pos(stride, i, j) == |padded| + i;
        }
      }
    }

    method WriteRgbaResult(rgba: seq<Rgba8>, width: nat, height: nat)
      requires Sized(texture, config) && |rgba| == width * height
      modifies this
      ensures State() == WriteRgba(old(State()), config, rgba, width, height) && Sized(texture, config)
    {
      cropBarsKey := None;
      consecutiveCropSkips := 0;
      WriteRgbaSubview(rgba, width, height, 0, 0);
    }

    method WriteResult(px: seq<Rgba8>, width: nat, height: nat)
      requires Sized(texture, config) && |px| == width * height
      modifies this
      ensures State() == WriteFull(old(State()), config, px, width, height) && Sized(texture, config)
    {
      cropBarsKey := None;
      if width != config.outW || height != config.outH {
        StretchNearestNeighbor(px, width, height);
        return;
      }
      WriteRgbaSubview(px, width, height, 0, 0);
    }

    /** A frame of another size, stretched into the output's. */
    method StretchNearestNeighbor(px: seq<Rgba8>, width: nat, height: nat)
      requires Sized(texture, config) && |px| == width * height
      modifies this`texture
      ensures texture == Written(old(texture), config, Rect(0, 0, config.outW, config.outH),
                                 Stretched(px, width, height, config), config.outW)
      ensures Sized(texture, config)
    {
      var outW, outH := config.outW, config.outH;
      ghost var goal := Stretched(px, width, height, config);
      var rgba: seq<Rgba8> := [];
      var y := 0;
      while y < outH
        invariant texture == old(texture)
        invariant 0 <= y <= outH && |rgba| == y * outW <= |goal| && rgba == goal[..y * outW]
      {
        var srcY := Nearest(y, height, outH);
        MulStrict(y, outH, outW);
        var x := 0;
        while x < outW
          invariant texture == old(texture)
          invariant 0 <= x <= outW && |rgba| == y * outW + x <= |goal| && rgba == goal[..y * outW + x]
        {
          StretchedAt(px, width, height, config, x, y);
          rgba := rgba + [Texel(px, width, Nearest(x, width, outW), srcY)];
          x := x + 1;
        }
        assert (y + 1) * outW == y * outW + outW;
        y := y + 1;
      }
      assert goal[..outH * outW] == goal;
      WriteRgbaSubview(rgba, outW, outH, 0, 0);
    }

    /** `gpu` is what the composer makes of the frame, `px` what the CPU composes. */
    method WriteComposedResult(gpu: Gpu, px: seq<Rgba8>, width: nat, height: nat) returns (onGpu: bool)
      requires Sized(texture, config) && |px| == width * height
      modifies this
      ensures State() == WriteComposed(old(State()), config, gpu, px, width, height) && Sized(texture, config)
      ensures onGpu == (old(composer) && gpu.Handles?)
    {
      if composer {
        match gpu
        case Handles(w, h, drawn) =>
          WriteTexture(drawn, w, Rect(0, 0, w, h));
          gpuComposeFailures := 0;
          return true;
        case Declines =>
        case Fails =>
          gpuComposeFailures := gpuComposeFailures + 1;
          if gpuComposeFailures >= COMPOSER_FAILURES {
            composer := false;
          }
      }
      WriteResult(px, width, height);
      return false;
    }

    method PresentCroppedResult(rgba: seq<Rgba8>, width: nat, height: nat, crop: Rect, targetWidth: nat, targetHeight: nat)
      returns (r: Outcome)
      requires Sized(texture, config) && |rgba| == width * height && 0 < config.inferW && 0 < config.inferH
      modifies this
      ensures (State(), r) == PresentCropped(old(State()), config, rgba, width, height, crop, targetWidth, targetHeight)
      ensures Sized(texture, config)
    {
      var targeted := targetWidth > 0 && targetHeight > 0;
      var rw, rh := if targeted then targetWidth else width, if targeted then targetHeight else height;
      if width != rw || height != rh {
        return Threw;
      }
      var decision := DecideCropPaste(crop, config, rw, rh);
      match decision
      case Unfit => return Threw;
      case Skip =>
        consecutiveCropSkips := consecutiveCropSkips + 1;
        if consecutiveCropSkips >= FATAL_INFERENCE_FAILURES {
          return Threw;
        }
        return Skipped;
      case Paste(ox, oy) =>
        consecutiveCropSkips := 0;
        if ox < 0 || oy < 0 {
          return Threw;
        }
        WriteRgbaSubview(rgba, width, height, ox, oy);
        EnsureCropBarsFilled(crop, Rect(ox, oy, rw, rh));
        return Presented;
    }

    method EnsureCropBarsFilled(crop: Rect, p: Rect)
      requires Sized(texture, config)
      modifies this`texture, this`cropBarsKey
      ensures Sized(texture, config) && cropBarsKey == Some(crop)
      ensures texture == if old(cropBarsKey) == Some(crop) then old(texture) else FillBars(old(texture), config, p)
    {
      if cropBarsKey == Some(crop) {
        return;
      }
      var bars := Bars(config, p);
      WriteBlackRect(bars[0]);
      WriteBlackRect(bars[1]);
      WriteBlackRect(bars[2]);
      WriteBlackRect(bars[3]);
      cropBarsKey := Some(crop);
    }

    method WriteBlackRect(r: Rect)
      requires Sized(texture, config)
      modifies this`texture
      ensures texture == Blacken(old(texture), config, r) && Sized(texture, config)
    {
      if r.w <= 0 || r.h <= 0 {
        return;
      }
      var stride := (r.w + ROW_ALIGNMENT - 1) / ROW_ALIGNMENT * ROW_ALIGNMENT;
      MulMono(0, r.h, stride);
      var black := Blacks(stride * r.h);
      WriteTexture(black, stride, r);
      SamePaint(old(texture), r, black, stride, [], r.w);
    }
  }
}

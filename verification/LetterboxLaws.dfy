/** Letterbox memory over any sequence of full-frame and cropped writes. */
module LetterboxLaws {
  import opened Arith
  import opened Wrappers
  import opened Frames
  import opened OutputWriter

  datatype Write =
    | Rgba(px: seq<Rgba8>, w: nat, h: nat)
    | Full(px: seq<Rgba8>, w: nat, h: nat)
    | Composed(gpu: Gpu, px: seq<Rgba8>, w: nat, h: nat)
    | Cropped(px: seq<Rgba8>, w: nat, h: nat, crop: Rect, tw: nat, th: nat)

  function Step(s: Screen, c: Config, e: Write): Screen
    requires 0 < c.inferW && 0 < c.inferH
  {
    match e
    case Rgba(px, w, h) => WriteRgba(s, c, px, w, h)
    case Full(px, w, h) => WriteFull(s, c, px, w, h)
    case Composed(gpu, px, w, h) => WriteComposed(s, c, gpu, px, w, h)
    case Cropped(px, w, h, crop, tw, th) => PresentCropped(s, c, px, w, h, crop, tw, th).0
  }

  function Run(s: Screen, c: Config, writes: seq<Write>): Screen
    requires 0 < c.inferW && 0 < c.inferH
    decreases |writes|
  {
    if writes == [] then s else Run(Step(s, c, writes[0]), c, writes[1..])
  }

  /** Where a cropped write that is presented lands. */
  function Landing(c: Config, e: Write): Option<Rect>
    requires 0 < c.inferW && 0 < c.inferH && e.Cropped?
  {
    var d := DecideCropPaste(e.crop, c, e.w, e.h);
    if (e.tw == 0 || e.th == 0 || (e.tw == e.w && e.th == e.h)) && d.Paste? && 0 <= d.ox && 0 <= d.oy
    then Some(Rect(d.ox, d.oy, e.w, e.h)) else None
  }

  lemma LandingIs(s: Screen, c: Config, e: Write)
    requires 0 < c.inferW && 0 < c.inferH && e.Cropped?
    ensures var (t, r) := PresentCropped(s, c, e.px, e.w, e.h, e.crop, e.tw, e.th);
      && (r == Presented <==> Landing(c, e).Some?)
      && (r != Presented ==> t.texture == s.texture && t.key == s.key)
      && (r == Presented ==>
            && FitsIn(Landing(c, e).value, c) && t.key == Some(e.crop)
            && var pasted := Paint(s.texture, Landing(c, e).value, e.px, e.w);
               t.texture == if s.key == Some(e.crop) then pasted else FillBars(pasted, c, Landing(c, e).value))
  {
  }

  // ---- the invariant ---------------------------------------------------------------------------------

  /** `rects` fixes one paste rectangle per crop. */
  ghost predicate Clean(s: Screen, c: Config, rects: Rect -> Rect) {
    Sized(s.texture, c) && (s.key.Some? ==> BlackOutside(s.texture, c, rects(s.key.value)))
  }

  /** A write the bar memory can cope with in state `s`: a crop lands where its key says, and the GPU
      does not compose over remembered bars. */
  ghost predicate Regular(s: Screen, c: Config, rects: Rect -> Rect, e: Write)
    requires 0 < c.inferW && 0 < c.inferH
  {
    match e
    case Cropped(_, _, _, crop, _, _) => Landing(c, e).Some? ==> Landing(c, e).value == rects(crop)
    case Composed(gpu, _, _, _) => s.composer && gpu.Handles? ==> s.key.None?
    case _ => true
  }

  ghost predicate AllRegular(s: Screen, c: Config, rects: Rect -> Rect, writes: seq<Write>)
    requires 0 < c.inferW && 0 < c.inferH
    decreases |writes|
  {
    writes == [] || (Regular(s, c, rects, writes[0]) && AllRegular(Step(s, c, writes[0]), c, rects, writes[1..]))
  }

  lemma PaintInside(t: Texture, c: Config, p: Rect, px: seq<Rgba8>, stride: int)
    requires Sized(t, c) && FitsIn(p, c)
    ensures Sized(Paint(t, p, px, stride), c)
    ensures BlackOutside(t, c, p) ==> BlackOutside(Paint(t, p, px, stride), c, p)
  {
  }

  lemma StepKeepsClean(s: Screen, c: Config, rects: Rect -> Rect, e: Write)
    requires 0 < c.inferW && 0 < c.inferH && Clean(s, c, rects) && Regular(s, c, rects, e)
    ensures Clean(Step(s, c, e), c, rects)
  {
    hide Paint, FillBars;
    if e.Cropped? {
      LandingIs(s, c, e);
      if Landing(c, e).Some? {
        var p := Landing(c, e).value;
        PaintInside(s.texture, c, p, e.px, e.w);
        FillBarsIs(Paint(s.texture, p, e.px, e.w), c, p);
      }
    }
  }

  /** Over any regular sequence of writes, whenever a crop is presented its bars are opaque black
      and its content is the pasted result, filled this time or remembered. */
  lemma {:induction false} BarsAreRemembered(s: Screen, c: Config, rects: Rect -> Rect, writes: seq<Write>, e: Write)
    requires 0 < c.inferW && 0 < c.inferH && Clean(s, c, rects) && AllRegular(s, c, rects, writes + [e])
    requires e.Cropped? && Landing(c, e).Some?
    ensures var t, p := Run(s, c, writes + [e]).texture, rects(e.crop);
      && BlackOutside(t, c, p)
      && forall i, j :: Inside(p, i, j) ==> At(t, i, j) == Texel(e.px, e.w, i - p.x, j - p.y)
    decreases |writes|
  {
    hide Step, Clean, Regular, BlackOutside, Landing;
    var all := writes + [e];
    StepKeepsClean(s, c, rects, all[0]);
    if writes == [] {
      assert all == [e] && all[1..] == [];
      assert Run(s, c, all) == Step(s, c, e);
      LastIsClean(s, c, rects, e);
    } else {
      assert all[1..] == writes[1..] + [e] && all[0] == writes[0];
      BarsAreRemembered(Step(s, c, writes[0]), c, rects, writes[1..], e);
    }
  }

  lemma LastIsClean(s: Screen, c: Config, rects: Rect -> Rect, e: Write)
    requires 0 < c.inferW && 0 < c.inferH && Clean(s, c, rects) && Regular(s, c, rects, e)
    requires e.Cropped? && Landing(c, e).Some?
    ensures var t, p := Step(s, c, e).texture, rects(e.crop);
      && BlackOutside(t, c, p)
      && forall i, j :: Inside(p, i, j) ==> At(t, i, j) == Texel(e.px, e.w, i - p.x, j - p.y)
  {
    hide FillBars;
    StepKeepsClean(s, c, rects, e);
    LandingIs(s, c, e);
    PastedContent(s, c, e);
  }

  lemma PastedContent(s: Screen, c: Config, e: Write)
    requires 0 < c.inferW && 0 < c.inferH && Sized(s.texture, c) && e.Cropped? && Landing(c, e).Some?
    ensures var t, p := Step(s, c, e).texture, Landing(c, e).value;
      forall i, j :: Inside(p, i, j) ==> At(t, i, j) == Texel(e.px, e.w, i - p.x, j - p.y)
  {
    hide FillBars;
    LandingIs(s, c, e);
    var p := Landing(c, e).value;
    FillBarsIs(Paint(s.texture, p, e.px, e.w), c, p);
  }

  // ---- exactly when it fails ------------------------------------------------------------------------------

  /** Whatever came before, a crop presented in a texture of the right size has black bars exactly
      if its key is not the remembered one, or all that is outside its paste was black already. */
  lemma BarsBlackIff(s: Screen, c: Config, e: Write)
    requires 0 < c.inferW && 0 < c.inferH && Sized(s.texture, c) && e.Cropped? && Landing(c, e).Some?
    ensures var p := Landing(c, e).value;
      BlackOutside(Step(s, c, e).texture, c, p) <==> s.key != Some(e.crop) || BlackOutside(s.texture, c, p)
  {
    hide FillBars;
    LandingIs(s, c, e);
    var p := Landing(c, e).value;
    var pasted := Paint(s.texture, p, e.px, e.w);
    FillBarsIs(pasted, c, p);
    if s.key == Some(e.crop) {
      forall i, j | 0 <= i < c.outW && 0 <= j < c.outH && !Inside(p, i, j)
        ensures At(pasted, i, j) == At(s.texture, i, j)
      {
      }
    }
  }

  /** The GPU branch repaints the frame and keeps the key: after a crop, a composed frame and the
      same crop again, the bars are black exactly if the composed frame was black there. */
  lemma GpuComposeLeavesItsPixels(s: Screen, c: Config, first: Write, drawn: seq<Rgba8>, px: seq<Rgba8>, w: nat, h: nat,
                                  again: Write)
    requires 0 < c.inferW && 0 < c.inferH && Sized(s.texture, c) && s.composer
    requires first.Cropped? && again.Cropped? && first.crop == again.crop
    requires Landing(c, first).Some? && Landing(c, again).Some?
    ensures var p := Landing(c, again).value;
      var frame := Composed(Handles(c.outW, c.outH, drawn), px, w, h);
      BlackOutside(Run(s, c, [first, frame, again]).texture, c, p)
      <==> forall i, j :: 0 <= i < c.outW && 0 <= j < c.outH && !Inside(p, i, j) ==> Texel(drawn, c.outW, i, j) == OPAQUE_BLACK
  {
    hide FillBars;
    var frame := Composed(Handles(c.outW, c.outH, drawn), px, w, h);
    var s1 := Step(s, c, first);
    LandingIs(s, c, first);
    FillBarsIs(Paint(s.texture, Landing(c, first).value, first.px, first.w), c, Landing(c, first).value);
    var s2 := Step(s1, c, frame);
    assert s2.key == Some(again.crop);
    assert Sized(s1.texture, c);
    assert forall i, j :: 0 <= i < c.outW && 0 <= j < c.outH ==> At(s2.texture, i, j) == Texel(drawn, c.outW, i, j);
    BarsBlackIff(s2, c, again);
    assert [first, frame, again][1..] == [frame, again] && [frame, again][1..] == [again] && [again][1..] == [];
    assert Run(s2, c, [again]) == Step(s2, c, again);
    assert Run(s1, c, [frame, again]) == Run(s2, c, [again]);
  }

  // ---- where crops land, in numbers -------------------------------------------------------------------------

  /** n is a / b rounded, halves up. */
  predicate IsRounded(n: int, a: int, b: int) { (2 * n - 1) * b <= 2 * a < (2 * n + 1) * b }

  lemma RoundedIs(n: int, a: int, b: int)
    requires 0 < b && IsRounded(n, a, b)
    ensures RoundHalfUp(a, b) == n
  {
    var d := 2 * a + b - 2 * b * n;
    assert (2 * n - 1) * b == 2 * b * n - b && (2 * n + 1) * b == 2 * b * n + b;
    DivModUnique(2 * a + b, 2 * b, n, d);
  }

  /** A crop's origin scales to the nearest output pixel (ox, oy). Nothing is pasted left of or above the
      output; a result that reaches more than two pixels beyond it is skipped; one or two pixels are made up
      by moving it back. */
  lemma CropLands(crop: Rect, c: Config, w: int, h: int, ox: int, oy: int)
    requires 0 < c.inferW && 0 < c.inferH
    requires IsRounded(ox, c.outW * crop.x, c.inferW) && IsRounded(oy, c.outH * crop.y, c.inferH)
    ensures DecideCropPaste(crop, c, w, h)
      == if ox < 0 || oy < 0 then Unfit
         else if ox + w > c.outW + 2 || oy + h > c.outH + 2 then Skip
         else Paste(if ox + w <= c.outW then ox else c.outW - w, if oy + h <= c.outH then oy else c.outH - h)
  {
    hide RoundHalfUp;
    RoundedIs(ox, c.outW * crop.x, c.inferW);
    RoundedIs(oy, c.outH * crop.y, c.inferH);
  }

  /** The fourth skip in a row throws, and not an earlier one: `n` skips behind one another, after a write
      that was none, are skipped while they are at most three. */
  lemma FourthSkipThrows(s: Screen, c: Config, skips: seq<Write>, last: Write)
    requires 0 < c.inferW && 0 < c.inferH && s.skips == 0
    requires IsSkip(c, last) && forall e :: e in skips ==> IsSkip(c, e)
    ensures var t := Run(s, c, skips);
      && t == s.(skips := |skips|)
      && PresentCropped(t, c, last.px, last.w, last.h, last.crop, last.tw, last.th).1
         == (if |skips| >= 3 then Threw else Skipped)
  {
    SkipsCount(s, c, skips);
  }

  /** A crop whose result has the announced size and reaches too far. */
  predicate IsSkip(c: Config, e: Write)
    requires 0 < c.inferW && 0 < c.inferH
  {
    && e.Cropped? && (e.tw == 0 || e.th == 0 || (e.tw == e.w && e.th == e.h))
    && DecideCropPaste(e.crop, c, e.w, e.h) == Skip
  }

  lemma {:induction false} SkipsCount(s: Screen, c: Config, skips: seq<Write>)
    requires 0 < c.inferW && 0 < c.inferH && forall e :: e in skips ==> IsSkip(c, e)
    ensures Run(s, c, skips) == s.(skips := s.skips + |skips|)
    decreases |skips|
  {
    if skips != [] {
      assert IsSkip(c, skips[0]);
      SkipsCount(Step(s, c, skips[0]), c, skips[1..]);
    }
  }

  /** Every presented crop and every plain frame starts the count again. */
  lemma CountStartsAgain(s: Screen, c: Config, e: Write)
    requires 0 < c.inferW && 0 < c.inferH
    requires e.Rgba? || (e.Cropped? && Landing(c, e).Some?)
    ensures Step(s, c, e).skips == 0
  {
  }

  /** A composer that fails three frames in a row is not asked again; one that fails twice and then
      draws is. */
  lemma ThreeFailuresRetire(s: Screen, c: Config, a: Write, b: Write, d: Write)
    requires 0 < c.inferW && 0 < c.inferH && s.composer && s.failures == 0
    requires a.Composed? && a.gpu == Fails && b.Composed? && b.gpu == Fails && d.Composed? && d.gpu != Declines
    ensures var t := Step(Step(Step(s, c, a), c, b), c, d);
      Step(Step(s, c, a), c, b).composer && (t.composer <==> d.gpu.Handles?) && (d.gpu.Handles? ==> t.failures == 0)
  {
    hide Written, Stretched;
  }

  // ---- what a write shows ------------------------------------------------------------------------------------

  /** A plain frame no larger than the output is copied to its upper left corner, row by row, and leaves the
      rest; a larger one changes nothing. */
  lemma PlainFrameIs(s: Screen, c: Config, px: seq<Rgba8>, w: nat, h: nat, i: nat, j: nat)
    requires 0 < c.inferW && 0 < c.inferH && Sized(s.texture, c) && |px| == w * h && i < c.outW && j < c.outH
    ensures var t := Step(s, c, Rgba(px, w, h));
      && t.key == None
      && (w <= c.outW && h <= c.outH && i < w && j < h ==>
            0 <= j * w + i < |px| && At(t.texture, i, j) == px[j * w + i])
      && (w > c.outW || h > c.outH || i >= w || j >= h ==> At(t.texture, i, j) == At(s.texture, i, j))
  {
    if i < w && j < h { PosInRange(w, h, i, j); }
  }

  /** A frame from the session fills the output: pixel (i, j) is the source pixel at the same place in
      proportion, rounded down. */
  lemma FullFrameIs(s: Screen, c: Config, px: seq<Rgba8>, w: nat, h: nat, i: nat, j: nat, x: nat, y: nat)
    requires 0 < c.inferW && 0 < c.inferH && Sized(s.texture, c) && |px| == w * h && i < c.outW && j < c.outH
    requires x < w && y < h && x * c.outW <= i * w < (x + 1) * c.outW && y * c.outH <= j * h < (y + 1) * c.outH
    ensures var t := Step(s, c, Full(px, w, h));
      t.key == None && 0 <= y * w + x < |px| && At(t.texture, i, j) == px[y * w + x]
  {
    PosInRange(w, h, x, y);
    Proportion(i, w, c.outW, x);
    Proportion(j, h, c.outH, y);
    hide Nearest, Stretched, Texel;
    FullTexture(s, c, px, w, h, i, j);
    if w == c.outW && h == c.outH {
      NearestKeepsOrder(i, i, w, c.outW);
      NearestKeepsOrder(j, j, h, c.outH);
    } else {
      StretchedAt(px, w, h, c, i, j);
      ReadsAt(Stretched(px, w, h, c), c, i, j);
    }
    TexelIs(px, w, h, x, y);
  }

  lemma FullTexture(s: Screen, c: Config, px: seq<Rgba8>, w: nat, h: nat, i: nat, j: nat)
    requires Sized(s.texture, c) && i < c.outW && j < c.outH
    ensures var t := WriteFull(s, c, px, w, h);
      && t.key == None
      && At(t.texture, i, j) == Texel(if w == c.outW && h == c.outH then px else Stretched(px, w, h, c), c.outW, i, j)
  {
    hide Stretched, Texel;
  }

  lemma TexelIs(px: seq<Rgba8>, w: nat, h: nat, x: nat, y: nat)
    requires |px| == w * h && x < w && y < h
    ensures 0 <= y * w + x < |px| && Texel(px, w, x, y) == px[y * w + x]
  {
    PosInRange(w, h, x, y);
  }

  lemma ReadsAt(drawn: seq<Rgba8>, c: Config, i: nat, j: nat)
    requires |drawn| == c.outW * c.outH && i < c.outW && j < c.outH
    ensures 0 <= j * c.outW + i < |drawn| && Texel(drawn, c.outW, i, j) == drawn[j * c.outW + i]
  {
    TexelIs(drawn, c.outW, c.outH, i, j);
  }

  lemma Proportion(k: nat, size: nat, out: nat, n: nat)
    requires k < out && n < size && n * out <= k * size < (n + 1) * out
    ensures Nearest(k, size, out) == n
  {
    assert (n + 1) * out == n * out + out;
    DivModUnique(k * size, out, n, k * size - n * out);
  }
}

/** The fractional box average of native/linux-host/box-downscale.h, in exact reals:
    one rounding, at the end. */
module BoxDownscale {
  import opened Arith
  import opened Frames
  import opened RealSums

  function Min(a: real, b: real): real { if a <= b then a else b }

  function Max(a: real, b: real): real { if a <= b then b else a }

  function Ceil(v: real): int { -((-v).Floor) }

  /** Source coordinate of output edge `k` when `s` source cells become `d` output cells. */
  function Edge(k: int, s: nat, d: nat): real
    requires 0 < d
  {
    (k * s) as real / d as real
  }

  /** Length of [lo, hi) inside source cell [s, s + 1). */
  function Overlap(lo: real, hi: real, s: int): real {
    Max(0.0, Min(hi, (s + 1) as real) - Max(lo, s as real))
  }

  function OverlapAt(lo: real, hi: real): int -> real { s => Overlap(lo, hi, s) }

  function Chan(p: Rgba8, c: nat): Byte { if c == 0 then p.r else if c == 1 then p.g else p.b }

  function Tap(img: Image, c: nat, x: int, y: int): (v: real)
    requires img.Valid()
    ensures 0.0 <= v <= 255.0
  {
    if img.Inside(x, y) then Chan(img.At(x, y), c) as real else 0.0
  }

  /** A source rectangle with real edges. */
  datatype Window = Window(x0: real, x1: real, y0: real, y1: real) {
    predicate Within(w: nat, h: nat) {
      0.0 <= x0 <= x1 <= w as real && 0.0 <= y0 <= y1 <= h as real
    }

    function Area(): real { (x1 - x0) * (y1 - y0) }
  }

  /** Each source cell's value, weighted by its share of [lo, hi). */
  function Weigh(lo: real, hi: real, g: int -> real): int -> real {
    s => Overlap(lo, hi, s) * g(s)
  }

  function TapRow(img: Image, c: nat, sy: int): int -> real
    requires img.Valid()
  {
    sx => Tap(img, c, sx, sy)
  }

  function RowTerm(img: Image, c: nat, win: Window, sy: int): int -> real
    requires img.Valid()
  {
    Weigh(win.x0, win.x1, TapRow(img, c, sy))
  }

  function RowSums(img: Image, c: nat, win: Window): int -> real
    requires img.Valid()
  {
    sy => Sum(img.w, RowTerm(img, c, win, sy))
  }

  function ColTerm(img: Image, c: nat, win: Window): int -> real
    requires img.Valid()
  {
    Weigh(win.y0, win.y1, RowSums(img, c, win))
  }

  /** The window's integral over the whole source image, cell by cell. */
  function WindowSum(img: Image, c: nat, win: Window): (v: real)
    requires img.Valid()
  {
    Sum(img.h, ColTerm(img, c, win))
  }

  function OutputWindow(w: nat, h: nat, dw: nat, dh: nat, x: int, y: int): Window
    requires 0 < dw && 0 < dh
  {
    Window(Edge(x, w, dw), Edge(x + 1, w, dw), Edge(y, h, dh), Edge(y + 1, h, dh))
  }

  function BoxValue(img: Image, dw: nat, dh: nat, c: nat, x: int, y: int): real
    requires img.Valid() && 0 < dw && 0 < dh
  {
    var win := OutputWindow(img.w, img.h, dw, dh, x, y);
    WindowSum(img, c, win) / Max(win.Area(), 0.000001)
  }

  function Quantise(v: real): Byte
    requires 0.0 <= v
  {
    var n := (v + 0.5).Floor;
    if n > 255 then 255 else n
  }

  /** The output pixel: three averaged channels, rounded half up, opaque. */
  function BoxPixel(img: Image, dw: nat, dh: nat, x: int, y: int): Rgba8
    requires img.Valid() && 0 < dw && 0 < dh
  {
    BoxValueNonneg(img, dw, dh, 0, x, y);
    BoxValueNonneg(img, dw, dh, 1, x, y);
    BoxValueNonneg(img, dw, dh, 2, x, y);
    Rgba8(Quantise(BoxValue(img, dw, dh, 0, x, y)),
          Quantise(BoxValue(img, dw, dh, 1, x, y)),
          Quantise(BoxValue(img, dw, dh, 2, x, y)), 255)
  }

  // ---- sums of weights ------------------------------------------------------------------

  lemma BoxValueNonneg(img: Image, dw: nat, dh: nat, c: nat, x: int, y: int)
    requires img.Valid() && 0 < dw && 0 < dh
    ensures 0.0 <= BoxValue(img, dw, dh, c, x, y)
  {
    var win := OutputWindow(img.w, img.h, dw, dh, x, y);
    WindowSumNonneg(img, c, win);
    DivNonneg(WindowSum(img, c, win), Max(win.Area(), 0.000001));
  }

  lemma DivNonneg(a: real, b: real)
    requires 0.0 <= a && 0.0 < b
    ensures 0.0 <= a / b
  {
  }

  lemma MulNonneg(a: real, b: real)
    requires 0.0 <= a && 0.0 <= b
    ensures 0.0 <= a * b
  {
  }

  lemma {:induction false} SumNonneg(n: nat, f: int -> real)
    requires forall i :: 0 <= i < n ==> 0.0 <= f(i)
    ensures 0.0 <= Sum(n, f)
  {
    if n > 0 { SumNonneg(n - 1, f); }
  }

  lemma WindowSumNonneg(img: Image, c: nat, win: Window)
    requires img.Valid()
    ensures 0.0 <= WindowSum(img, c, win)
  {
    var f := ColTerm(img, c, win);
    forall sy | 0 <= sy < img.h ensures 0.0 <= f(sy) {
      ColNonneg(img, c, win, sy);
    }
    SumNonneg(img.h, f);
  }

  lemma ColNonneg(img: Image, c: nat, win: Window, sy: int)
    requires img.Valid()
    ensures 0.0 <= ColTerm(img, c, win)(sy)
  {
    RowNonneg(img, c, win, sy);
    MulNonneg(Overlap(win.y0, win.y1, sy), Sum(img.w, RowTerm(img, c, win, sy)));
  }

  lemma RowNonneg(img: Image, c: nat, win: Window, sy: int)
    requires img.Valid()
    ensures 0.0 <= Sum(img.w, RowTerm(img, c, win, sy))
  {
    forall sx | 0 <= sx < img.w ensures 0.0 <= RowTerm(img, c, win, sy)(sx) {
      MulNonneg(Overlap(win.x0, win.x1, sx), Tap(img, c, sx, sy));
    }
    SumNonneg(img.w, RowTerm(img, c, win, sy));
  }

  /** The cells' shares of an interval add up to its length. */
  lemma {:induction false} OverlapTotal(n: nat, lo: real, hi: real)
    requires 0.0 <= lo <= hi
    ensures Sum(n, OverlapAt(lo, hi)) == Min(hi, n as real) - Min(lo, n as real)
  {
    if n > 0 { OverlapTotal(n - 1, lo, hi); }
  }

  lemma EdgeMono(j: int, k: int, s: nat, d: nat)
    requires 0 < d && 0 <= j <= k <= d
    ensures 0.0 <= Edge(j, s, d) <= Edge(k, s, d) <= s as real
  {
    MulMono(0, j, s);
    MulMono(j, k, s);
    MulMono(k, d, s);
    DivMono((j * s) as real, (k * s) as real, d as real);
    DivMono((k * s) as real, (d * s) as real, d as real);
    DivMono(0.0, (j * s) as real, d as real);
    EdgeLast(s, d);
  }

  lemma EdgeLast(s: nat, d: nat)
    requires 0 < d
    ensures Edge(d, s, d) == s as real
  {
    MulReal(d, s);
    CancelReal(d as real, s as real);
  }

  lemma MulReal(a: int, b: int)
    ensures (a * b) as real == a as real * b as real
  {
  }

  lemma CancelReal(a: real, b: real)
    requires a != 0.0
    ensures (a * b) / a == b
  {
  }

  lemma DivMono(a: real, b: real, d: real)
    requires a <= b && 0.0 < d
    ensures a / d <= b / d
  {
  }

  lemma OutputWindowWithin(w: nat, h: nat, dw: nat, dh: nat, x: int, y: int)
    requires 0 <= x < dw && 0 <= y < dh
    ensures OutputWindow(w, h, dw, dh, x, y).Within(w, h)
  {
    EdgeMono(x, x + 1, w, dw);
    EdgeMono(y, y + 1, h, dh);
  }

  // ---- the loops ------------------------------------------------------------------------

  /** Partial sums start at the first covered cell and stop after the last. */
  lemma CoveredCells(lo: real, hi: real, n: nat, f: int -> real)
    requires 0.0 <= lo <= hi <= n as real
    requires forall s :: 0 <= s < n && Overlap(lo, hi, s) == 0.0 ==> f(s) == 0.0
    ensures 0 <= lo.Floor && Ceil(hi) <= n
    ensures lo.Floor <= n ==> Sum(lo.Floor, f) == 0.0
    ensures 0 <= Ceil(hi) && Sum(Ceil(hi), f) == Sum(n, f)
    ensures Ceil(hi) <= lo.Floor ==> Sum(n, f) == 0.0
  {
    if lo.Floor <= n { SumTail(0, lo.Floor, f); }
    SumTail(Ceil(hi), n, f);
    if Ceil(hi) <= lo.Floor { SumTail(0, n, f); }
  }

  /** An accumulator that has taken in the first `n` terms of `f`, each weighted by `w`. */
  ghost predicate Taken(acc: real, acc0: real, w: real, f: int -> real, n: nat) {
    acc == acc0 + w * Sum(n, f)
  }

  function MulAdd(acc: real, v: real, wgt: real): real { acc + v * wgt }

  lemma TakeTerm(acc: real, acc0: real, wx: real, wy: real, wgt: real, v: real, f: int -> real, n: nat)
    requires Taken(acc, acc0, wy, f, n) && f(n) == wx * v && wgt == wx * wy
    ensures Taken(MulAdd(acc, v, wgt), acc0, wy, f, n + 1)
  {
    assert wy * (Sum(n, f) + wx * v) == wy * Sum(n, f) + wy * (wx * v);
    assert wy * (wx * v) == v * (wx * wy);
  }

  lemma TakeNone(acc: real, w: real, f: int -> real, n: nat)
    requires Sum(n, f) == 0.0
    ensures Taken(acc, acc, w, f, n)
  {
  }

  lemma SkipTerm(acc: real, acc0: real, wy: real, f: int -> real, n: nat)
    requires Taken(acc, acc0, wy, f, n) && f(n) == 0.0
    ensures Taken(acc, acc0, wy, f, n + 1)
  {
  }

  /** The same accumulator, read against a later index whose extra terms vanish. */
  lemma TakenUpTo(acc: real, acc0: real, w: real, f: int -> real, n: nat, m: nat)
    requires Taken(acc, acc0, w, f, n) && Sum(n, f) == Sum(m, f)
    ensures Taken(acc, acc0, w, f, m)
  {
  }

  /** The overlap length as the loop computes it. */
  function Span(lo: real, hi: real, s: int): real { Min(hi, (s + 1) as real) - Max(lo, s as real) }

  lemma RowTermTap(img: Image, win: Window, sy: int, sx: int)
    requires img.Valid() && img.Inside(sx, sy) && Span(win.x0, win.x1, sx) > 0.0
    ensures var wx, px := Span(win.x0, win.x1, sx), img.At(sx, sy);
      && RowTerm(img, 0, win, sy)(sx) == wx * px.r as real
      && RowTerm(img, 1, win, sy)(sx) == wx * px.g as real
      && RowTerm(img, 2, win, sy)(sx) == wx * px.b as real
      && OverlapAt(win.x0, win.x1)(sx) == wx * 1.0
  {
    var wx, px := Span(win.x0, win.x1, sx), img.At(sx, sy);
    assert Overlap(win.x0, win.x1, sx) == wx;
    assert TapRow(img, 0, sy)(sx) == px.r as real;
    assert TapRow(img, 1, sy)(sx) == px.g as real;
    assert TapRow(img, 2, sy)(sx) == px.b as real;
  }

  lemma RowTermZero(img: Image, c: nat, win: Window, sy: int, sx: int)
    requires img.Valid() && Overlap(win.x0, win.x1, sx) == 0.0
    ensures RowTerm(img, c, win, sy)(sx) == 0.0
  {
  }

  lemma ColTermZero(img: Image, c: nat, win: Window, sy: int)
    requires img.Valid() && Overlap(win.y0, win.y1, sy) == 0.0
    ensures ColTerm(img, c, win)(sy) == 0.0
  {
  }

  lemma RowCells(img: Image, c: nat, win: Window, sy: int)
    requires img.Valid() && win.Within(img.w, img.h)
    ensures var f := RowTerm(img, c, win, sy);
      && (win.x0.Floor <= img.w ==> Sum(win.x0.Floor, f) == 0.0)
      && (Ceil(win.x1) <= win.x0.Floor ==> Sum(img.w, f) == 0.0)
      && Sum(Ceil(win.x1), f) == Sum(img.w, f)
  {
    forall sx | 0 <= sx < img.w && Overlap(win.x0, win.x1, sx) == 0.0
      ensures RowTerm(img, c, win, sy)(sx) == 0.0
    {
      RowTermZero(img, c, win, sy, sx);
    }
    CoveredCells(win.x0, win.x1, img.w, RowTerm(img, c, win, sy));
  }

  lemma ColCells(img: Image, c: nat, win: Window)
    requires img.Valid() && win.Within(img.w, img.h)
    ensures var f := ColTerm(img, c, win);
      && (win.y0.Floor <= img.h ==> Sum(win.y0.Floor, f) == 0.0)
      && (Ceil(win.y1) <= win.y0.Floor ==> Sum(img.h, f) == 0.0)
      && Sum(Ceil(win.y1), f) == Sum(img.h, f)
  {
    forall sy | 0 <= sy < img.h && Overlap(win.y0, win.y1, sy) == 0.0
      ensures ColTerm(img, c, win)(sy) == 0.0
    {
      ColTermZero(img, c, win, sy);
    }
    CoveredCells(win.y0, win.y1, img.h, ColTerm(img, c, win));
  }

  lemma WeightRowCells(win: Window, w: nat, h: nat)
    requires win.Within(w, h)
    ensures var f := OverlapAt(win.x0, win.x1);
      && 0 <= win.x0.Floor <= w && Ceil(win.x1) <= w
      && Sum(win.x0.Floor, f) == 0.0
      && (Ceil(win.x1) <= win.x0.Floor ==> Sum(w, f) == 0.0)
      && (0 <= Ceil(win.x1) ==> Sum(Ceil(win.x1), f) == Sum(w, f))
  {
    CoveredCells(win.x0, win.x1, w, OverlapAt(win.x0, win.x1));
  }

  /** A cell the loop skips contributes nothing to any accumulator. */
  lemma SkippedCell(img: Image, win: Window, sy: int, sx: int)
    requires img.Valid() && Span(win.x0, win.x1, sx) <= 0.0
    ensures RowTerm(img, 0, win, sy)(sx) == 0.0
    ensures RowTerm(img, 1, win, sy)(sx) == 0.0
    ensures RowTerm(img, 2, win, sy)(sx) == 0.0
    ensures OverlapAt(win.x0, win.x1)(sx) == 0.0
  {
    RowTermZero(img, 0, win, sy, sx);
    RowTermZero(img, 1, win, sy, sx);
    RowTermZero(img, 2, win, sy, sx);
  }

  /** The innermost loop: one source row's share of the window. */
  method AccumulateRow(src: Image, win: Window, sy: int, wy: real, ar0: real, ag0: real, ab0: real, wsum0: real)
    returns (ar: real, ag: real, ab: real, wsum: real)
    requires src.Valid() && win.Within(src.w, src.h) && 0 <= sy < src.h
    ensures Taken(ar, ar0, wy, RowTerm(src, 0, win, sy), src.w)
    ensures Taken(ag, ag0, wy, RowTerm(src, 1, win, sy), src.w)
    ensures Taken(ab, ab0, wy, RowTerm(src, 2, win, sy), src.w)
    ensures Taken(wsum, wsum0, wy, OverlapAt(win.x0, win.x1), src.w)
  {
    hide *;
    ar, ag, ab, wsum := ar0, ag0, ab0, wsum0;
    var x0, x1 := win.x0.Floor, Ceil(win.x1);
    ghost var fr, fg, fb := RowTerm(src, 0, win, sy), RowTerm(src, 1, win, sy), RowTerm(src, 2, win, sy);
    ghost var fw := OverlapAt(win.x0, win.x1);
    WeightRowCells(win, src.w, src.h);
    RowCells(src, 0, win, sy);
    RowCells(src, 1, win, sy);
    RowCells(src, 2, win, sy);
    TakeNone(ar, wy, fr, x0);
    TakeNone(ag, wy, fg, x0);
    TakeNone(ab, wy, fb, x0);
    TakeNone(wsum, wy, fw, x0);
    var sx := x0;
    while sx < x1
      invariant 0 <= x0 <= sx && (sx <= x1 || sx == x0) && x1 <= src.w
      invariant Taken(ar, ar0, wy, fr, sx)
      invariant Taken(ag, ag0, wy, fg, sx)
      invariant Taken(ab, ab0, wy, fb, sx)
      invariant Taken(wsum, wsum0, wy, fw, sx)
    {
      var wx := Span(win.x0, win.x1, sx);
      if wx > 0.0 {
        var wgt := wx * wy;
        InsideByBounds(src, sx, sy);
        var px := src.At(sx, sy);
        RowTermTap(src, win, sy, sx);
        TakeTerm(ar, ar0, wx, wy, wgt, px.r as real, fr, sx);
        TakeTerm(ag, ag0, wx, wy, wgt, px.g as real, fg, sx);
        TakeTerm(ab, ab0, wx, wy, wgt, px.b as real, fb, sx);
        TakeTerm(wsum, wsum0, wx, wy, wgt, 1.0, fw, sx);
        ar := MulAdd(ar, px.r as real, wgt);
        ag := MulAdd(ag, px.g as real, wgt);
        ab := MulAdd(ab, px.b as real, wgt);
        wsum := MulAdd(wsum, 1.0, wgt);
      } else {
        SkippedCell(src, win, sy, sx);
        SkipTerm(ar, ar0, wy, fr, sx);
        SkipTerm(ag, ag0, wy, fg, sx);
        SkipTerm(ab, ab0, wy, fb, sx);
        SkipTerm(wsum, wsum0, wy, fw, sx);
      }
      sx := sx + 1;
    }
    TakenUpTo(ar, ar0, wy, fr, sx, src.w);
    TakenUpTo(ag, ag0, wy, fg, sx, src.w);
    TakenUpTo(ab, ab0, wy, fb, sx, src.w);
    TakenUpTo(wsum, wsum0, wy, fw, sx, src.w);
  }

  lemma InsideByBounds(img: Image, x: int, y: int)
    requires 0 <= x < img.w && 0 <= y < img.h
    ensures img.Inside(x, y)
  {
  }

  /** The window's weights, row by row. */
  function WeightTerm(w: nat, win: Window): int -> real {
    sy => Overlap(win.y0, win.y1, sy) * Sum(w, OverlapAt(win.x0, win.x1))
  }

  lemma FullSpan(n: nat, lo: real, hi: real)
    requires 0.0 <= lo <= hi <= n as real
    ensures Sum(n, OverlapAt(lo, hi)) == hi - lo
  {
    OverlapTotal(n, lo, hi);
  }

  lemma WeightsTotal(w: nat, h: nat, win: Window)
    requires win.Within(w, h)
    ensures Sum(h, WeightTerm(w, win)) == win.Area()
  {
    hide Sum, Overlap;
    var span := win.x1 - win.x0;
    FullSpan(w, win.x0, win.x1);
    FullSpan(h, win.y0, win.y1);
    forall sy | 0 <= sy < h ensures WeightTerm(w, win)(sy) == span * OverlapAt(win.y0, win.y1)(sy) {
      assert WeightTerm(w, win)(sy) == Overlap(win.y0, win.y1, sy) * span;
    }
    SumScale(h, span, OverlapAt(win.y0, win.y1), WeightTerm(w, win));
  }

  lemma WeightColCells(win: Window, w: nat, h: nat)
    requires win.Within(w, h)
    ensures var f := WeightTerm(w, win);
      && 0 <= win.y0.Floor <= h && Ceil(win.y1) <= h
      && Sum(win.y0.Floor, f) == 0.0
      && (Ceil(win.y1) <= win.y0.Floor ==> Sum(h, f) == 0.0)
      && (0 <= Ceil(win.y1) ==> Sum(Ceil(win.y1), f) == Sum(h, f))
  {
    var f := WeightTerm(w, win);
    forall sy | 0 <= sy < h && Overlap(win.y0, win.y1, sy) == 0.0 ensures f(sy) == 0.0 {
    }
    CoveredCells(win.y0, win.y1, h, f);
  }

  lemma RowIntoColumn(acc: real, acc0: real, wy: real, row: int -> real, n: nat, col: int -> real, sy: nat)
    requires acc0 == Sum(sy, col) && Taken(acc, acc0, wy, row, n)
    requires col(sy) == wy * Sum(n, row)
    ensures acc == Sum(sy + 1, col)
  {
  }

  lemma ColTermRow(img: Image, c: nat, win: Window, sy: int)
    requires img.Valid() && Span(win.y0, win.y1, sy) > 0.0
    ensures ColTerm(img, c, win)(sy) == Span(win.y0, win.y1, sy) * Sum(img.w, RowTerm(img, c, win, sy))
    ensures WeightTerm(img.w, win)(sy) == Span(win.y0, win.y1, sy) * Sum(img.w, OverlapAt(win.x0, win.x1))
  {
    assert RowSums(img, c, win)(sy) == Sum(img.w, RowTerm(img, c, win, sy));
    assert Overlap(win.y0, win.y1, sy) == Span(win.y0, win.y1, sy);
  }

  /** A source row the loop skips contributes nothing. */
  lemma SkippedRow(img: Image, win: Window, sy: nat)
    requires img.Valid() && Span(win.y0, win.y1, sy) <= 0.0
    ensures forall c: nat :: Sum(sy + 1, ColTerm(img, c, win)) == Sum(sy, ColTerm(img, c, win))
    ensures Sum(sy + 1, WeightTerm(img.w, win)) == Sum(sy, WeightTerm(img.w, win))
  {
    forall c: nat ensures ColTerm(img, c, win)(sy) == 0.0 {
      ColTermZero(img, c, win, sy);
    }
    assert WeightTerm(img.w, win)(sy) == 0.0;
  }

  lemma WindowSumIs(img: Image, c: nat, win: Window)
    requires img.Valid()
    ensures WindowSum(img, c, win) == Sum(img.h, ColTerm(img, c, win))
  {
  }

  /** The two window loops: accumulate one output pixel's channels and total weight. */
  method Accumulate(src: Image, win: Window) returns (ar: real, ag: real, ab: real, wsum: real)
    requires src.Valid() && win.Within(src.w, src.h)
    ensures ar == WindowSum(src, 0, win)
    ensures ag == WindowSum(src, 1, win)
    ensures ab == WindowSum(src, 2, win)
    ensures wsum == win.Area()
  {
    hide *;
    ar, ag, ab, wsum := 0.0, 0.0, 0.0, 0.0;
    var y0, y1 := win.y0.Floor, Ceil(win.y1);
    ghost var cr, cg, cb := ColTerm(src, 0, win), ColTerm(src, 1, win), ColTerm(src, 2, win);
    ghost var cw := WeightTerm(src.w, win);
    ColCells(src, 0, win);
    ColCells(src, 1, win);
    ColCells(src, 2, win);
    WeightColCells(win, src.w, src.h);
    WeightsTotal(src.w, src.h, win);
    var sy := y0;
    while sy < y1
      invariant 0 <= y0 <= sy && (sy <= y1 || sy == y0) && y1 <= src.h
      invariant ar == Sum(sy, cr) && ag == Sum(sy, cg) && ab == Sum(sy, cb) && wsum == Sum(sy, cw)
    {
      var wy := Span(win.y0, win.y1, sy);
      if wy > 0.0 {
        ghost var ar0, ag0, ab0, wsum0 := ar, ag, ab, wsum;
        ar, ag, ab, wsum := AccumulateRow(src, win, sy, wy, ar, ag, ab, wsum);
        ColTermRow(src, 0, win, sy);
        ColTermRow(src, 1, win, sy);
        ColTermRow(src, 2, win, sy);
        RowIntoColumn(ar, ar0, wy, RowTerm(src, 0, win, sy), src.w, cr, sy);
        RowIntoColumn(ag, ag0, wy, RowTerm(src, 1, win, sy), src.w, cg, sy);
        RowIntoColumn(ab, ab0, wy, RowTerm(src, 2, win, sy), src.w, cb, sy);
        RowIntoColumn(wsum, wsum0, wy, OverlapAt(win.x0, win.x1), src.w, cw, sy);
      } else {
        SkippedRow(src, win, sy);
        assert Sum(sy + 1, cr) == Sum(sy, cr) && Sum(sy + 1, cg) == Sum(sy, cg) && Sum(sy + 1, cb) == Sum(sy, cb);
      }
      sy := sy + 1;
    }
    WindowSumIs(src, 0, win);
    WindowSumIs(src, 1, win);
    WindowSumIs(src, 2, win);
  }

  // ---- an average stays between its inputs ------------------------------------------------

  lemma ScaleBounds(w: real, a: real, v: real, b: real)
    requires 0.0 <= w && (0.0 < w ==> a <= v <= b)
    ensures a * w <= w * v <= b * w
  {
    if 0.0 < w {
      assert 0.0 <= w * (v - a) && 0.0 <= w * (b - v);
    }
  }

  function Scaled(a: real, f: int -> real): int -> real { i => a * f(i) }

  lemma WeighBounds(n: nat, lo: real, hi: real, g: int -> real, a: real, b: real)
    requires 0.0 <= lo <= hi <= n as real
    requires forall s :: 0 <= s < n && 0.0 < Overlap(lo, hi, s) ==> a <= g(s) <= b
    ensures a * (hi - lo) <= Sum(n, Weigh(lo, hi, g)) <= b * (hi - lo)
  {
    hide Sum, Overlap;
    var share, low, high := OverlapAt(lo, hi), Scaled(a, OverlapAt(lo, hi)), Scaled(b, OverlapAt(lo, hi));
    FullSpan(n, lo, hi);
    SumScale(n, a, share, low);
    SumScale(n, b, share, high);
    forall s | 0 <= s < n ensures low(s) <= Weigh(lo, hi, g)(s) <= high(s) {
      OverlapNonneg(lo, hi, s);
      ScaleBounds(Overlap(lo, hi, s), a, g(s), b);
    }
    SumMono(n, low, Weigh(lo, hi, g));
    SumMono(n, Weigh(lo, hi, g), high);
  }

  lemma OverlapNonneg(lo: real, hi: real, s: int)
    ensures 0.0 <= Overlap(lo, hi, s)
  {
  }

  /** The source pixels an output window touches with positive weight. */
  ghost predicate Touches(img: Image, win: Window, sx: int, sy: int) {
    && img.Inside(sx, sy)
    && 0.0 < Overlap(win.x0, win.x1, sx)
    && 0.0 < Overlap(win.y0, win.y1, sy)
  }

  lemma WindowSumBounds(img: Image, c: nat, win: Window, a: real, b: real)
    requires img.Valid() && win.Within(img.w, img.h)
    requires forall sx, sy :: Touches(img, win, sx, sy) ==> a <= Tap(img, c, sx, sy) <= b
    ensures a * (win.x1 - win.x0) * (win.y1 - win.y0) <= WindowSum(img, c, win)
    ensures WindowSum(img, c, win) <= b * (win.x1 - win.x0) * (win.y1 - win.y0)
  {
    hide Sum, Overlap, Tap;
    var span := win.x1 - win.x0;
    forall sy | 0 <= sy < img.h && 0.0 < Overlap(win.y0, win.y1, sy)
      ensures a * span <= RowSums(img, c, win)(sy) <= b * span
    {
      forall sx | 0 <= sx < img.w && 0.0 < Overlap(win.x0, win.x1, sx)
        ensures a <= TapRow(img, c, sy)(sx) <= b
      {
        assert Touches(img, win, sx, sy);
      }
      WeighBounds(img.w, win.x0, win.x1, TapRow(img, c, sy), a, b);
    }
    WeighBounds(img.h, win.y0, win.y1, RowSums(img, c, win), a * span, b * span);
  }

  lemma QuotientBounds(v: real, area: real, a: real, b: real)
    requires 0.0 < area && a * area <= v <= b * area
    ensures a <= v / area <= b
  {
    DivMono(a * area, v, area);
    DivMono(v, b * area, area);
    CancelReal(area, a);
    CancelReal(area, b);
  }

  // ---- what an output pixel is ---------------------------------------------------------------

  /** One field of a frame's pixels, 0 beyond its edge. */
  function Reds(img: Image): (int, int) -> real
    requires img.Valid()
  {
    (x, y) => if img.Inside(x, y) then img.At(x, y).r as real else 0.0
  }

  function Greens(img: Image): (int, int) -> real
    requires img.Valid()
  {
    (x, y) => if img.Inside(x, y) then img.At(x, y).g as real else 0.0
  }

  function Blues(img: Image): (int, int) -> real
    requires img.Valid()
  {
    (x, y) => if img.Inside(x, y) then img.At(x, y).b as real else 0.0
  }

  /** The integral of a w x h plane over [x0, x1) x [y0, y1). */
  function Integral(plane: (int, int) -> real, w: nat, h: nat, x0: real, x1: real, y0: real, y1: real): real {
    Sum(h, sy => Overlap(y0, y1, sy) * Sum(w, sx => Overlap(x0, x1, sx) * plane(sx, sy)))
  }

  /** Its mean there; windows of less than a millionth of a source pixel are divided by that. */
  function Mean(plane: (int, int) -> real, w: nat, h: nat, x0: real, x1: real, y0: real, y1: real): real {
    var area := (x1 - x0) * (y1 - y0);
    Integral(plane, w, h, x0, x1, y0, y1) / if area < 0.000001 then 0.000001 else area
  }

  /** `v` is the nearest byte, halves up. */
  predicate IsRounded(v: Byte, mean: real) { v as real - 0.5 <= mean < v as real + 0.5 }

  /** `v` is the mean of the plane over output cell (x, y)'s part of it. */
  ghost predicate IsMean(v: Byte, plane: (int, int) -> real, w: nat, h: nat, dw: nat, dh: nat, x: int, y: int)
    requires 0 < dw && 0 < dh
  {
    var x0, x1 := (x * w) as real / dw as real, ((x + 1) * w) as real / dw as real;
    var y0, y1 := (y * h) as real / dh as real, ((y + 1) * h) as real / dh as real;
    IsRounded(v, Mean(plane, w, h, x0, x1, y0, y1))
  }

  /** An opaque pixel whose fields are the means of the same fields of the source. */
  ghost predicate IsAverage(p: Rgba8, img: Image, dw: nat, dh: nat, x: int, y: int)
    requires img.Valid() && 0 < dw && 0 < dh
  {
    && IsMean(p.r, Reds(img), img.w, img.h, dw, dh, x, y)
    && IsMean(p.g, Greens(img), img.w, img.h, dw, dh, x, y)
    && IsMean(p.b, Blues(img), img.w, img.h, dw, dh, x, y)
    && p.a == 255
  }

  lemma WindowIsIntegral(img: Image, c: nat, win: Window, plane: (int, int) -> real)
    requires img.Valid() && forall x, y :: plane(x, y) == Tap(img, c, x, y)
    ensures WindowSum(img, c, win) == Integral(plane, img.w, img.h, win.x0, win.x1, win.y0, win.y1)
  {
    hide Sum, Overlap, Tap;
    var rows := sy => Overlap(win.y0, win.y1, sy) * Sum(img.w, sx => Overlap(win.x0, win.x1, sx) * plane(sx, sy));
    forall sy | 0 <= sy < img.h ensures ColTerm(img, c, win)(sy) == rows(sy) {
      var row := sx => Overlap(win.x0, win.x1, sx) * plane(sx, sy);
      forall sx | 0 <= sx < img.w ensures RowTerm(img, c, win, sy)(sx) == row(sx) {
        assert TapRow(img, c, sy)(sx) == plane(sx, sy);
      }
      SumCong(img.w, RowTerm(img, c, win, sy), row);
    }
    SumCong(img.h, ColTerm(img, c, win), rows);
  }

  lemma QuantisedMean(v: real)
    requires 0.0 <= v <= 255.0
    ensures IsRounded(Quantise(v), v)
  {
  }

  lemma BoxValueIsByte(img: Image, dw: nat, dh: nat, c: nat, x: int, y: int)
    requires img.Valid() && 0 <= x < dw && 0 <= y < dh
    ensures 0.0 <= BoxValue(img, dw, dh, c, x, y) <= 255.0
  {
    hide Sum, Overlap, Tap, WindowSum, Edge, Max;
    var win := OutputWindow(img.w, img.h, dw, dh, x, y);
    BoxValueNonneg(img, dw, dh, c, x, y);
    OutputWindowWithin(img.w, img.h, dw, dh, x, y);
    TapsAreBytes(img, c);
    WindowSumBounds(img, c, win, 0.0, 255.0);
    var sx, sy := win.x1 - win.x0, win.y1 - win.y0;
    AtMostAverage(WindowSum(img, c, win), sx, sy);
    assert win.Area() == sx * sy;
  }

  lemma BoxValueIsMean(img: Image, dw: nat, dh: nat, c: nat, x: int, y: int, plane: (int, int) -> real)
    requires img.Valid() && 0 < dw && 0 < dh && forall i, j :: plane(i, j) == Tap(img, c, i, j)
    ensures var win := OutputWindow(img.w, img.h, dw, dh, x, y);
      BoxValue(img, dw, dh, c, x, y) == Mean(plane, img.w, img.h, win.x0, win.x1, win.y0, win.y1)
  {
    hide Sum, Overlap, Tap, WindowSum, Integral, Edge;
    WindowIsIntegral(img, c, OutputWindow(img.w, img.h, dw, dh, x, y), plane);
  }

  lemma ChannelIsMean(img: Image, dw: nat, dh: nat, c: nat, x: int, y: int, plane: (int, int) -> real)
    requires img.Valid() && 0 <= x < dw && 0 <= y < dh && forall i, j :: plane(i, j) == Tap(img, c, i, j)
    ensures 0.0 <= BoxValue(img, dw, dh, c, x, y)
    ensures IsMean(Quantise(BoxValue(img, dw, dh, c, x, y)), plane, img.w, img.h, dw, dh, x, y)
  {
    hide BoxValue, Mean, Quantise, IsRounded, Tap;
    BoxValueIsByte(img, dw, dh, c, x, y);
    QuantisedMean(BoxValue(img, dw, dh, c, x, y));
    BoxValueIsMean(img, dw, dh, c, x, y, plane);
  }

  lemma TapsAreBytes(img: Image, c: nat)
    requires img.Valid()
    ensures forall x, y :: 0.0 <= Tap(img, c, x, y) <= 255.0
  {
  }

  lemma AtMostAverage(sum: real, sx: real, sy: real)
    requires 0.0 <= sx && 0.0 <= sy && sum <= 255.0 * sx * sy
    ensures sum / Max(sx * sy, 0.000001) <= 255.0
  {
    var area := sx * sy;
    MulNonneg(sx, sy);
    assert 255.0 * sx * sy == 255.0 * area;
    var m := Max(area, 0.000001);
    assert sum <= 255.0 * m;
    DivMono(sum, 255.0 * m, m);
    CancelReal(m, 255.0);
  }

  lemma BoxPixelIsAverage(img: Image, dw: nat, dh: nat, x: int, y: int)
    requires img.Valid() && 0 <= x < dw && 0 <= y < dh
    ensures IsAverage(BoxPixel(img, dw, dh, x, y), img, dw, dh, x, y)
  {
    hide BoxValue, IsMean, Quantise;
    ChannelIsMean(img, dw, dh, 0, x, y, Reds(img));
    ChannelIsMean(img, dw, dh, 1, x, y, Greens(img));
    ChannelIsMean(img, dw, dh, 2, x, y, Blues(img));
  }

  /** Writes output rows [rowBegin, rowEnd) and nothing else. */
  method BoxDownscaleRows(src: Image, dst: array<Rgba8>, dw: nat, dh: nat, rowBegin: nat, rowEnd: nat)
    requires src.Valid() && 0 < dw && 0 < dh
    requires dst.Length == dw * dh && rowBegin <= rowEnd <= dh
    modifies dst
    ensures forall x, y :: 0 <= x < dw && rowBegin <= y < rowEnd ==>
              0 <= Pos(dw, x, y) < dst.Length && dst[Pos(dw, x, y)] == BoxPixel(src, dw, dh, x, y)
    ensures forall x, y :: 0 <= x < dw && rowBegin <= y < rowEnd ==> IsAverage(dst[Pos(dw, x, y)], src, dw, dh, x, y)
    ensures forall x, y :: 0 <= x < dw && 0 <= y < dh && !(rowBegin <= y < rowEnd) ==>
              0 <= Pos(dw, x, y) < dst.Length && dst[Pos(dw, x, y)] == old(dst[Pos(dw, x, y)])
  {
    forall x, y | 0 <= x < dw && 0 <= y < dh ensures 0 <= Pos(dw, x, y) < dst.Length {
      PosInRange(dw, dh, x, y);
    }
    var y := rowBegin;
    while y < rowEnd
      invariant rowBegin <= y <= rowEnd
      invariant forall i, j :: 0 <= i < dw && rowBegin <= j < y ==>
                  dst[Pos(dw, i, j)] == BoxPixel(src, dw, dh, i, j)
      invariant forall i, j :: 0 <= i < dw && 0 <= j < dh && !(rowBegin <= j < y) ==>
                  dst[Pos(dw, i, j)] == old(dst[Pos(dw, i, j)])
    {
      var x := 0;
      while x < dw
        invariant 0 <= x <= dw
        invariant forall i, j :: 0 <= i < dw && rowBegin <= j < y ==>
                    dst[Pos(dw, i, j)] == BoxPixel(src, dw, dh, i, j)
        invariant forall i :: 0 <= i < x ==> dst[Pos(dw, i, y)] == BoxPixel(src, dw, dh, i, y)
        invariant forall i, j :: 0 <= i < dw && 0 <= j < dh && !(rowBegin <= j < y) && !(j == y && i < x) ==>
                    dst[Pos(dw, i, j)] == old(dst[Pos(dw, i, j)])
      {
        OutputWindowWithin(src.w, src.h, dw, dh, x, y);
        var win := OutputWindow(src.w, src.h, dw, dh, x, y);
        var ar, ag, ab, wsum := Accumulate(src, win);
        var floor := Max(wsum, 0.000001);
        BoxValueNonneg(src, dw, dh, 0, x, y);
        BoxValueNonneg(src, dw, dh, 1, x, y);
        BoxValueNonneg(src, dw, dh, 2, x, y);
        forall i, j | 0 <= i < dw && 0 <= j < dh && Pos(dw, i, j) == Pos(dw, x, y)
          ensures i == x && j == y
        {
          PosInjective(dw, i, j, x, y);
        }
        dst[Pos(dw, x, y)] := Rgba8(Quantise(ar / floor), Quantise(ag / floor), Quantise(ab / floor), 255);
        x := x + 1;
      }
      y := y + 1;
    }
    forall i, j | 0 <= i < dw && rowBegin <= j < rowEnd ensures IsAverage(dst[Pos(dw, i, j)], src, dw, dh, i, j) {
      BoxPixelIsAverage(src, dw, dh, i, j);
    }
  }
}

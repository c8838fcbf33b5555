/** What the fractional box average means, for every source and destination size. */
module BoxLaws {
  import opened Arith
  import opened Frames
  import opened RealSums
  import opened BoxDownscale

  // ---- one axis -------------------------------------------------------------------------

  /** The part of [0, v) that lies in cell [s, s + 1). */
  function Reach(v: real, s: int): real { Max(0.0, Min(v - s as real, 1.0)) }

  /** Output windows share every source cell out completely. */
  lemma {:induction false} CellShares(k: nat, s: nat, d: nat, cell: int, f: int -> real)
    requires 0 < d && k <= d && 0 <= cell < s
    requires forall j :: 0 <= j < d ==> f(j) == Overlap(Edge(j, s, d), Edge(j + 1, s, d), cell)
    ensures Sum(k, f) == Reach(Edge(k, s, d), cell)
  {
    if k == 0 {
      assert Edge(0, s, d) == 0.0;
    } else {
      hide Edge, Overlap, Reach;
      CellShares(k - 1, s, d, cell, f);
      EdgeMono(k - 1, k, s, d);
      assert f(k - 1) == Overlap(Edge(k - 1, s, d), Edge(k, s, d), cell);
      ReachGrows(Edge(k - 1, s, d), Edge(k, s, d), cell);
    }
  }

  lemma ReachGrows(a: real, b: real, cell: int)
    requires a <= b && 0 <= cell
    ensures Reach(a, cell) + Overlap(a, b, cell) == Reach(b, cell)
  {
  }

  function Resampled(s: nat, d: nat, g: int -> real): int -> real
    requires 0 < d
  {
    k => Sum(s, Weigh(Edge(k, s, d), Edge(k + 1, s, d), g))
  }

  /** Output cell k's share of source cell i, as weight and as weighted value. */
  function Part(s: nat, d: nat, i: int): int -> real
    requires 0 < d
  {
    k => Overlap(Edge(k, s, d), Edge(k + 1, s, d), i)
  }

  function Share(s: nat, d: nat, g: int -> real): (int, int) -> real
    requires 0 < d
  {
    (k, i) => Part(s, d, i)(k) * g(i)
  }

  function ShareOf(s: nat, d: nat, g: int -> real, i: int): int -> real
    requires 0 < d
  {
    k => Share(s, d, g)(k, i)
  }

  lemma PartTotal(s: nat, d: nat, i: int)
    requires 0 < d && 0 <= i < s
    ensures Sum(d, Part(s, d, i)) == 1.0
  {
    hide Edge, Overlap, Sum, Reach;
    CellShares(d, s, d, i, Part(s, d, i));
    EdgeLast(s, d);
    ReachAll(s, i);
  }

  lemma ReachAll(s: nat, i: int)
    requires i < s
    ensures Reach(s as real, i) == 1.0
  {
  }

  lemma CellTotal(s: nat, d: nat, g: int -> real, i: int)
    requires 0 < d && 0 <= i < s
    ensures Sum(d, ShareOf(s, d, g, i)) == g(i)
  {
    hide Edge, Overlap, Sum;
    PartTotal(s, d, i);
    var part, shares, c := Part(s, d, i), ShareOf(s, d, g, i), g(i);
    forall k | 0 <= k < d ensures shares(k) == c * part(k) {
      assert Share(s, d, g)(k, i) == part(k) * c;
    }
    SumScale(d, c, part, shares);
  }

  lemma ResampledIsShares(s: nat, d: nat, g: int -> real, k: int)
    requires 0 < d
    ensures Resampled(s, d, g)(k) == Sum(s, i => Share(s, d, g)(k, i))
  {
    hide Edge, Overlap, Sum;
    var row := Weigh(Edge(k, s, d), Edge(k + 1, s, d), g);
    var shares := i => Share(s, d, g)(k, i);
    forall i | 0 <= i < s ensures row(i) == shares(i) {
      var p := Part(s, d, i)(k);
      assert p == Overlap(Edge(k, s, d), Edge(k + 1, s, d), i);
      assert row(i) == p * g(i);
      assert Share(s, d, g)(k, i) == p * g(i);
    }
    SumCong(s, row, shares);
  }

  /** Resampling one axis moves mass between cells but neither adds nor loses any. */
  lemma Conserve(s: nat, d: nat, g: int -> real)
    requires 0 < d
    ensures Sum(d, Resampled(s, d, g)) == Sum(s, g)
  {
    hide Overlap, Edge, Weigh, Share, Sum;
    var share := Share(s, d, g);
    var byOutput := k => Sum(s, i => share(k, i));
    var byCell := i => Sum(d, k => share(k, i));
    forall k | 0 <= k < d ensures Resampled(s, d, g)(k) == byOutput(k) {
      ResampledIsShares(s, d, g, k);
    }
    SumCong(d, Resampled(s, d, g), byOutput);
    SumSwap(d, s, share);
    forall i | 0 <= i < s ensures byCell(i) == g(i) {
      CellTotal(s, d, g, i);
      SumCong(d, ShareOf(s, d, g, i), k => share(k, i));
    }
    SumCong(s, byCell, g);
  }

  // ---- both axes ------------------------------------------------------------------------

  function RowTotals(img: Image, c: nat): int -> real
    requires img.Valid()
  {
    sy => Sum(img.w, TapRow(img, c, sy))
  }

  function OutputSums(img: Image, c: nat, dw: nat, dh: nat, y: int): int -> real
    requires img.Valid() && 0 < dw && 0 < dh
  {
    x => WindowSum(img, c, OutputWindow(img.w, img.h, dw, dh, x, y))
  }

  function OutputTotals(img: Image, c: nat, dw: nat, dh: nat): int -> real
    requires img.Valid() && 0 < dw && 0 < dh
  {
    y => Sum(dw, OutputSums(img, c, dw, dh, y))
  }

  /** One term of an output row's double sum: column x, source row sy. */
  function Strip(img: Image, c: nat, dw: nat, wy: int -> real): (int, int) -> real
    requires img.Valid() && 0 < dw
  {
    (x, sy) => wy(sy) * Resampled(img.w, dw, TapRow(img, c, sy))(x)
  }

  lemma WindowIsStrips(img: Image, c: nat, dw: nat, dh: nat, x: int, y: int)
    requires img.Valid() && 0 < dw && 0 < dh
    ensures var wy := OverlapAt(Edge(y, img.h, dh), Edge(y + 1, img.h, dh));
      OutputSums(img, c, dw, dh, y)(x) == Sum(img.h, sy => Strip(img, c, dw, wy)(x, sy))
  {
    hide Edge, Overlap, Sum;
    var wy := OverlapAt(Edge(y, img.h, dh), Edge(y + 1, img.h, dh));
    var win := OutputWindow(img.w, img.h, dw, dh, x, y);
    var strips := sy => Strip(img, c, dw, wy)(x, sy);
    forall sy | 0 <= sy < img.h ensures ColTerm(img, c, win)(sy) == strips(sy) {
      var r := Resampled(img.w, dw, TapRow(img, c, sy))(x);
      assert RowSums(img, c, win)(sy) == r;
      assert ColTerm(img, c, win)(sy) == wy(sy) * r;
      assert Strip(img, c, dw, wy)(x, sy) == wy(sy) * r;
    }
    SumCong(img.h, ColTerm(img, c, win), strips);
  }

  lemma StripTotal(img: Image, c: nat, dw: nat, wy: int -> real, sy: int)
    requires img.Valid() && 0 < dw
    ensures Sum(dw, x => Strip(img, c, dw, wy)(x, sy)) == wy(sy) * RowTotals(img, c)(sy)
  {
    hide Edge, Overlap, Sum;
    var r := Resampled(img.w, dw, TapRow(img, c, sy));
    var strips := x => Strip(img, c, dw, wy)(x, sy);
    Conserve(img.w, dw, TapRow(img, c, sy));
    forall x | 0 <= x < dw ensures strips(x) == wy(sy) * r(x) {
      assert Strip(img, c, dw, wy)(x, sy) == wy(sy) * r(x);
    }
    SumScale(dw, wy(sy), r, strips);
  }

  /** An output row collects exactly the share of the source rows it covers. */
  lemma RowMass(img: Image, c: nat, dw: nat, dh: nat, y: int)
    requires img.Valid() && 0 < dw && 0 < dh
    ensures OutputTotals(img, c, dw, dh)(y) == Resampled(img.h, dh, RowTotals(img, c))(y)
  {
    hide Edge, Overlap, Sum, Strip, WindowSum;
    var wy := OverlapAt(Edge(y, img.h, dh), Edge(y + 1, img.h, dh));
    var strip := Strip(img, c, dw, wy);
    var byColumn := x => Sum(img.h, sy => strip(x, sy));
    var byRow := sy => Sum(dw, x => strip(x, sy));
    var rows := Weigh(Edge(y, img.h, dh), Edge(y + 1, img.h, dh), RowTotals(img, c));
    forall x | 0 <= x < dw ensures OutputSums(img, c, dw, dh, y)(x) == byColumn(x) {
      WindowIsStrips(img, c, dw, dh, x, y);
    }
    SumCong(dw, OutputSums(img, c, dw, dh, y), byColumn);
    SumSwap(dw, img.h, strip);
    forall sy | 0 <= sy < img.h ensures byRow(sy) == rows(sy) {
      StripTotal(img, c, dw, wy, sy);
    }
    SumCong(img.h, byRow, rows);
  }

  /** Conservation: before rounding, the windows of all output pixels add up to the
      source image's total, for any pair of sizes (shrinking, growing or mixed). */
  lemma MassConserved(img: Image, c: nat, dw: nat, dh: nat)
    requires img.Valid() && 0 < dw && 0 < dh
    ensures Sum(dh, OutputTotals(img, c, dw, dh)) == Sum(img.h, RowTotals(img, c))
  {
    hide Edge, Overlap, Sum;
    forall y | 0 <= y < dh
      ensures OutputTotals(img, c, dw, dh)(y) == Resampled(img.h, dh, RowTotals(img, c))(y)
    {
      RowMass(img, c, dw, dh, y);
    }
    SumCong(dh, OutputTotals(img, c, dw, dh), Resampled(img.h, dh, RowTotals(img, c)));
    Conserve(img.h, dh, RowTotals(img, c));
  }

  // ---- an average stays between its inputs ----------------------------------------------

  /** Every averaged channel lies between the least and the greatest byte its window touches. */
  lemma BoxValueBetween(img: Image, dw: nat, dh: nat, c: nat, x: int, y: int, a: real, b: real)
    requires img.Valid() && 0 <= x < dw && 0 <= y < dh
    requires 0.000001 <= OutputWindow(img.w, img.h, dw, dh, x, y).Area()
    requires forall sx, sy :: Touches(img, OutputWindow(img.w, img.h, dw, dh, x, y), sx, sy)
               ==> a <= Tap(img, c, sx, sy) <= b
    ensures a <= BoxValue(img, dw, dh, c, x, y) <= b
  {
    hide Sum, Overlap, Edge, Tap, WindowSum;
    var win := OutputWindow(img.w, img.h, dw, dh, x, y);
    OutputWindowWithin(img.w, img.h, dw, dh, x, y);
    WindowSumBounds(img, c, win, a, b);
    AreaOrder(a, win.x1 - win.x0, win.y1 - win.y0);
    AreaOrder(b, win.x1 - win.x0, win.y1 - win.y0);
    QuotientBounds(WindowSum(img, c, win), win.Area(), a, b);
  }

  lemma AreaOrder(a: real, sx: real, sy: real)
    ensures a * sx * sy == a * (sx * sy)
  {
  }

  // ---- when the guard against empty windows matters ----------------------------------------

  lemma AreaIs(w: nat, h: nat, dw: nat, dh: nat, x: int, y: int)
    requires 0 < dw && 0 < dh
    ensures OutputWindow(w, h, dw, dh, x, y).Area() == (w * h) as real / (dw * dh) as real
  {
    EdgeStep(x, w, dw);
    EdgeStep(y, h, dh);
    QuotientProduct(w, dw, h, dh);
  }

  lemma EdgeStep(k: int, s: nat, d: nat)
    requires 0 < d
    ensures Edge(k + 1, s, d) - Edge(k, s, d) == s as real / d as real
  {
    assert (k + 1) * s == k * s + s;
    var a, b, r := (k * s) as real, s as real, d as real;
    assert ((k + 1) * s) as real == a + b;
    assert (a + b) / r == a / r + b / r;
  }

  lemma QuotientProduct(a: nat, b: nat, c: nat, d: nat)
    requires 0 < b && 0 < d
    ensures (a as real / b as real) * (c as real / d as real) == (a * c) as real / (b * d) as real
  {
    var p, q := a as real / b as real, c as real / d as real;
    MulReal(a, c);
    MulReal(b, d);
    assert p * b as real == a as real && q * d as real == c as real;
    assert (p * q) * (b as real * d as real) == a as real * c as real;
  }

  lemma GuardExactness(sum: real, area: real)
    requires 0.0 <= sum && 0.0 < area
    ensures sum / Max(area, 0.000001) == sum / area <==> 0.000001 <= area || sum == 0.0
  {
    if area < 0.000001 && sum > 0.0 {
      var p, q := sum / 0.000001, sum / area;
      assert p * 0.000001 == sum && q * area == sum;
      assert 0.0 < q;
      assert p * 0.000001 == q * area < q * 0.000001;
    }
  }

  /** The divisor's floor of 1e-6 leaves the true mean alone exactly when an output pixel
      covers at least a millionth of a source pixel, or the window is black anyway. */
  lemma BoxValueIsMeanIff(img: Image, dw: nat, dh: nat, c: nat, x: int, y: int)
    requires img.Valid() && 0 < img.w && 0 < img.h && 0 < dw && 0 < dh
    ensures var win := OutputWindow(img.w, img.h, dw, dh, x, y);
      (BoxValue(img, dw, dh, c, x, y) == WindowSum(img, c, win) / win.Area())
      <==> (0.000001 <= (img.w * img.h) as real / (dw * dh) as real || WindowSum(img, c, win) == 0.0)
  {
    hide Sum, Overlap, Edge, Tap, WindowSum;
    var win := OutputWindow(img.w, img.h, dw, dh, x, y);
    AreaIs(img.w, img.h, dw, dh, x, y);
    PositiveRatio(img.w, img.h, dw, dh);
    WindowSumNonneg(img, c, win);
    GuardExactness(WindowSum(img, c, win), win.Area());
  }

  ghost predicate AllOf(img: Image, colour: Rgba8)
    requires img.Valid()
  {
    forall x, y :: img.Inside(x, y) ==>
      img.At(x, y).r == colour.r && img.At(x, y).g == colour.g && img.At(x, y).b == colour.b
  }

  lemma ByteIs(v: Byte, w: Byte)
    requires IsRounded(v, w as real)
    ensures v == w
  {
  }

  lemma FieldIsKept(img: Image, dw: nat, dh: nat, c: nat, x: int, y: int, plane: (int, int) -> real, w: Byte, v: Byte)
    requires img.Valid() && 0 <= x < dw && 0 <= y < dh && forall i, j :: plane(i, j) == Tap(img, c, i, j)
    requires forall i, j :: img.Inside(i, j) ==> Tap(img, c, i, j) == w as real
    requires 0.000001 <= OutputWindow(img.w, img.h, dw, dh, x, y).Area()
    requires IsMean(v, plane, img.w, img.h, dw, dh, x, y)
    ensures v == w
  {
    hide Tap, Mean, IsRounded, BoxValue;
    BoxValueIsMean(img, dw, dh, c, x, y, plane);
    BoxValueBetween(img, dw, dh, c, x, y, w as real, w as real);
    ByteIs(v, w);
  }

  /** A frame of one colour is scaled to that colour, opaque, for every pair of sizes of which no output
      pixel covers less than a millionth of a source pixel. */
  lemma OneColourIsKept(img: Image, colour: Rgba8, dw: nat, dh: nat, x: int, y: int, p: Rgba8)
    requires img.Valid() && AllOf(img, colour) && 0 <= x < dw && 0 <= y < dh
    requires 0.000001 <= (img.w * img.h) as real / (dw * dh) as real
    requires IsAverage(p, img, dw, dh, x, y)
    ensures p == Rgba8(colour.r, colour.g, colour.b, 255)
  {
    hide IsMean, OutputWindow;
    AreaIs(img.w, img.h, dw, dh, x, y);
    FieldIsKept(img, dw, dh, 0, x, y, Reds(img), colour.r, p.r);
    FieldIsKept(img, dw, dh, 1, x, y, Greens(img), colour.g, p.g);
    FieldIsKept(img, dw, dh, 2, x, y, Blues(img), colour.b, p.b);
  }

  lemma PositiveRatio(w: nat, h: nat, dw: nat, dh: nat)
    requires 0 < w && 0 < h && 0 < dw && 0 < dh
    ensures 0 < w * h && 0 < dw * dh
    ensures 0.0 < (w * h) as real / (dw * dh) as real
  {
    MulStrict(0, w, h);
    MulStrict(0, dw, dh);
  }

  // ---- integer factors ---------------------------------------------------------------------

  lemma EdgeInteger(k: int, f: nat, d: nat)
    requires 0 < d
    ensures Edge(k, f * d, d) == (k * f) as real
  {
    assert k * (f * d) == (k * f) * d;
    MulReal(k * f, d);
    CancelReal(d as real, (k * f) as real);
  }

  lemma UnitCell(f: nat, lo: int, s: int)
    ensures Overlap(lo as real, (lo + f) as real, s) == if lo <= s < lo + f then 1.0 else 0.0
  {
  }

  function From(g: int -> real, lo: int): int -> real { i => g(lo + i) }

  /** Along one axis an integer factor sums `f` whole cells. */
  lemma IntegerAxis(f: nat, d: nat, x: int, g: int -> real)
    requires 0 <= x < d
    ensures Sum(f * d, Weigh(Edge(x, f * d, d), Edge(x + 1, f * d, d), g)) == Sum(f, From(g, x * f))
  {
    hide Sum, Overlap, Edge;
    EdgeInteger(x, f, d);
    EdgeInteger(x + 1, f, d);
    var lo := x * f;
    assert (x + 1) * f == lo + f;
    MulMono(0, x, f);
    MulMono(x + 1, d, f);
    var cells := Weigh(lo as real, (lo + f) as real, g);
    forall s ensures cells(s) == if lo <= s < lo + f then g(s) else 0.0 {
      UnitCell(f, lo, s);
    }
    SumTail(lo + f, f * d, cells);
    SumShift(lo, f, cells, From(g, lo));
  }

  /** Row sums of the f x f block at output pixel (x, y). */
  function BlockRows(img: Image, c: nat, f: nat, x: int): int -> real
    requires img.Valid()
  {
    sy => Sum(f, From(TapRow(img, c, sy), x * f))
  }

  function BlockSum(img: Image, c: nat, f: nat, x: int, y: int): real
    requires img.Valid()
  {
    Sum(f, From(BlockRows(img, c, f, x), y * f))
  }

  /** An integer factor reduces to the plain mean of an f x f block. */
  lemma IntegerFactorIsPlainMean(img: Image, f: nat, dw: nat, dh: nat, c: nat, x: int, y: int)
    requires img.Valid() && 0 < f && img.w == f * dw && img.h == f * dh
    requires 0 <= x < dw && 0 <= y < dh
    ensures BoxValue(img, dw, dh, c, x, y) == BlockSum(img, c, f, x, y) / (f * f) as real
  {
    hide Sum, Overlap, Edge, Tap;
    var win := OutputWindow(img.w, img.h, dw, dh, x, y);
    var rows, block := RowSums(img, c, win), BlockRows(img, c, f, x);
    forall sy ensures rows(sy) == block(sy) {
      IntegerAxis(f, dw, x, TapRow(img, c, sy));
    }
    IntegerAxis(f, dh, y, rows);
    SumCong(f, From(rows, y * f), From(block, y * f));
    IntegerArea(f, dw, x);
    IntegerArea(f, dh, y);
    MulReal(f, f);
    UnitSquare(f);
  }

  lemma IntegerArea(f: nat, d: nat, x: int)
    requires 0 < d
    ensures Edge(x + 1, f * d, d) - Edge(x, f * d, d) == f as real
  {
    EdgeInteger(x, f, d);
    EdgeInteger(x + 1, f, d);
    assert (x + 1) * f == x * f + f;
  }

  lemma UnitSquare(f: nat)
    requires 0 < f
    ensures 0.000001 <= f as real * f as real
  {
    assert f as real * f as real >= 1.0;
  }
}

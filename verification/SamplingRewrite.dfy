/** The texture lookups the shader generator emits: clamped bilinear sampling, and the integer
    load it puts in its place (native/tools/generate_anime4k_models.py, generate_hlsl). */
module SamplingRewrite {

  /** One channel of a texture; only coordinates inside its size are ever read. */
  type Texture = (int, int) -> real

  function Clamp(v: real, lo: real, hi: real): real { if v < lo then lo else if v > hi then hi else v }

  function ClampInt(v: int, lo: int, hi: int): int { if v < lo then lo else if v > hi then hi else v }

  // ---- one axis ---------------------------------------------------------------------------------

  /** Centre of output pixel p, normalised. */
  function Position(p: int, out: int): real
    requires 0 < out
  {
    (p as real + 0.5) / out as real
  }

  function ClampUv(u: real, size: int): real
    requires 0 < size
  {
    Clamp(u, 0.5 / size as real, (size as real - 0.5) / size as real)
  }

  /** Texel coordinate the sampler filters at, for an offset lookup from output pixel p. */
  function SampleCoord(p: int, out: int, size: int, offset: int): real
    requires 0 < out && 0 < size
  {
    ClampUv(Position(p, out) + offset as real / size as real, size) * size as real - 0.5
  }

  /** The integer load's coordinate. */
  function LoadCoord(p: int, size: int, offset: int): int { ClampInt(p + offset, 0, size - 1) }

  /** In texels: the scaled pixel centre moved by the offset, held between the outermost centres. */
  lemma SampleCoordIs(p: int, out: int, size: int, offset: int)
    requires 0 < out && 0 < size
    ensures SampleCoord(p, out, size, offset)
            == Clamp(Position(p, out) * size as real + offset as real - 0.5, 0.0, size as real - 1.0)
  {
    var n, u, o := size as real, Position(p, out), offset as real / size as real;
    assert o * n == offset as real;
    assert (u + o) * n == u * n + offset as real;
    ClampScales(u + o, n);
  }

  lemma ClampScales(u: real, n: real)
    requires 0.0 < n
    ensures Clamp(u, 0.5 / n, (n - 0.5) / n) * n - 0.5 == Clamp(u * n - 0.5, 0.0, n - 1.0)
  {
    hide Clamp;
    ClampTimes(u, 0.5 / n, (n - 0.5) / n, n, u * n, 0.5, n - 0.5) by {
      DivTimes(0.5, n);
      DivTimes(n - 0.5, n);
    }
    ClampShifts(u * n, 0.5, n - 0.5);
  }

  lemma ClampTimes(u: real, lo: real, hi: real, n: real, x: real, low: real, high: real)
    requires 0.0 < n && u * n == x && lo * n == low && hi * n == high
    ensures Clamp(u, lo, hi) * n == Clamp(x, low, high)
  {
    Scaled(u, lo, n);
    Scaled(hi, u, n);
    if u < lo {
      assert Clamp(u, lo, hi) == lo && Clamp(x, low, high) == low;
    } else if u > hi {
      assert Clamp(u, lo, hi) == hi && Clamp(x, low, high) == high;
    } else {
      assert Clamp(u, lo, hi) == u && Clamp(x, low, high) == x;
    }
  }

  lemma ClampShifts(x: real, lo: real, hi: real)
    ensures Clamp(x, lo, hi) - 0.5 == Clamp(x - 0.5, lo - 0.5, hi - 0.5)
  {
  }

  lemma DivTimes(a: real, n: real)
    requires 0.0 < n
    ensures a / n * n == a
  {
  }

  lemma Scaled(a: real, b: real, n: real)
    requires 0.0 < n
    ensures a < b <==> a * n < b * n
    ensures a <= b <==> a * n <= b * n
  {
    assert (b - a) * n == b * n - a * n;
    assert a < b ==> (b - a) * n > 0.0;
    assert b < a ==> (b - a) * n < 0.0;
  }

  function Gap(a: int, b: int): nat { if a <= b then b - a else a - b }

  /** The load goes to the texel of the resource nearest to where it aims. */
  lemma LoadIsNearest(p: int, size: int, offset: int, k: int)
    requires 0 < size && 0 <= k < size
    ensures var i := LoadCoord(p, size, offset); 0 <= i < size && Gap(i, p + offset) <= Gap(k, p + offset)
  {
  }

  function Distance(a: real, b: real): real { if a <= b then b - a else a - b }

  lemma ClampIsNearest(v: real, lo: real, hi: real, w: real)
    requires lo <= w <= hi
    ensures lo <= Clamp(v, lo, hi) <= hi && Distance(Clamp(v, lo, hi), v) <= Distance(w, v)
  {
  }

  /** And the sampler to the point between the outermost centres nearest to its own. */
  lemma SampleIsNearest(p: int, out: int, size: int, offset: int, w: real)
    requires 0 < out && 0 < size && 0.0 <= w <= size as real - 1.0
    ensures var aim, x := (p as real + 0.5) / out as real * size as real + offset as real - 0.5,
                          SampleCoord(p, out, size, offset);
      0.0 <= x <= size as real - 1.0 && Distance(x, aim) <= Distance(w, aim)
  {
    SampleCoordIs(p, out, size, offset);
    var aim := Position(p, out) * size as real + offset as real - 0.5;
    ClampIsNearest(aim, 0.0, size as real - 1.0, w);
  }

  lemma EqualSizesAgree(p: int, size: int, offset: int)
    requires 0 < size
    ensures SampleCoord(p, size, size, offset) == LoadCoord(p, size, offset) as real
  {
    SampleCoordIs(p, size, size, offset);
    var x := Position(p, size);
    assert x * size as real == p as real + 0.5;
  }

  lemma UnitSizeAgrees(p: int, out: int, offset: int)
    requires 0 < out
    ensures SampleCoord(p, out, 1, offset) == LoadCoord(p, 1, offset) as real
  {
    SampleCoordIs(p, out, 1, offset);
  }

  /** With other sizes the two already part at pixel 0 or 1, without any offset. */
  lemma OtherSizesPart(out: int, size: int) returns (p: int)
    requires 0 < out && 1 < size && size != out
    ensures 0 <= p < out && SampleCoord(p, out, size, 0) != LoadCoord(p, size, 0) as real
  {
    p := if size > out then 0 else 1;
    SampleCoordIs(p, out, size, 0);
    var u, n, m := Position(p, out), size as real, out as real;
    assert u * m == p as real + 0.5;
    if size > out {
      assert 0.0 < u;
      assert u * n > u * m by { assert u * (n - m) > 0.0; }
    } else {
      assert 0.0 < u;
      assert u * n < u * m by { assert u * (m - n) > 0.0; }
    }
  }

  // ---- the lookups -------------------------------------------------------------------------------

  /** Bilinear filtering with clamp addressing. */
  function Bilinear(tex: Texture, w: int, h: int, x: real, y: real): real
    requires 0 < w && 0 < h
  {
    var i, j := x.Floor, y.Floor;
    var a, b := x - i as real, y - j as real;
    var i0, i1 := ClampInt(i, 0, w - 1), ClampInt(i + 1, 0, w - 1);
    var j0, j1 := ClampInt(j, 0, h - 1), ClampInt(j + 1, 0, h - 1);
    var top := (1.0 - a) * tex(i0, j0) + a * tex(i1, j0);
    var bottom := (1.0 - a) * tex(i0, j1) + a * tex(i1, j1);
    (1.0 - b) * top + b * bottom
  }

  /** Pixel (p, q) of an out.0 x out.1 pass looks up a size.0 x size.1 resource at (dx, dy). */
  function SampleOffset(tex: Texture, size: (int, int), out: (int, int), p: int, q: int, dx: int, dy: int): real
    requires 0 < size.0 && 0 < size.1 && 0 < out.0 && 0 < out.1
  {
    Bilinear(tex, size.0, size.1, SampleCoord(p, out.0, size.0, dx), SampleCoord(q, out.1, size.1, dy))
  }

  function LoadOffset(tex: Texture, size: (int, int), p: int, q: int, dx: int, dy: int): real {
    tex(LoadCoord(p, size.0, dx), LoadCoord(q, size.1, dy))
  }

  lemma BilinearAtTexel(tex: Texture, w: int, h: int, i: int, j: int)
    requires 0 <= i < w && 0 <= j < h
    ensures Bilinear(tex, w, h, i as real, j as real) == tex(i, j)
  {
  }

  /** Between the outermost centres a ramp samples to its own coordinate. */
  lemma RampX(w: int, h: int, x: real, y: real)
    requires 0 < w && 0 < h && 0.0 <= x <= w as real - 1.0
    ensures Bilinear((i, j) => i as real, w, h, x, y) == x
  {
    var i := x.Floor;
    var a := x - i as real;
    var i1 := ClampInt(i + 1, 0, w - 1);
    assert 0 <= i <= w - 1;
    if i == w - 1 { assert a == 0.0; }
    assert (1.0 - a) * i as real + a * i1 as real == x;
    Mix(x, y - y.Floor as real);
  }

  lemma RampY(w: int, h: int, x: real, y: real)
    requires 0 < w && 0 < h && 0.0 <= y <= h as real - 1.0
    ensures Bilinear((i, j) => j as real, w, h, x, y) == y
  {
    var j := y.Floor;
    var b := y - j as real;
    var j1 := ClampInt(j + 1, 0, h - 1);
    assert 0 <= j <= h - 1;
    if j == h - 1 { assert b == 0.0; }
    var a := x - x.Floor as real;
    Mix(j as real, a);
    Mix(j1 as real, a);
    assert (1.0 - b) * j as real + b * j1 as real == y;
  }

  lemma Mix(v: real, a: real)
    ensures (1.0 - a) * v + a * v == v
  {
  }

  lemma CoordWithin(p: int, out: int, size: int, offset: int)
    requires 0 < out && 0 < size
    ensures 0.0 <= SampleCoord(p, out, size, offset) <= size as real - 1.0
    ensures 0 <= LoadCoord(p, size, offset) <= size - 1
  {
    SampleCoordIs(p, out, size, offset);
  }

  /** The rewrite keeps the meaning: the analysed equality of sizes is enough, for every
      texture, pixel and integer offset. */
  lemma LoadIsSample(tex: Texture, size: (int, int), p: int, q: int, dx: int, dy: int)
    requires 0 < size.0 && 0 < size.1
    ensures SampleOffset(tex, size, size, p, q, dx, dy) == LoadOffset(tex, size, p, q, dx, dy)
  {
    hide SampleCoord, Bilinear;
    EqualSizesAgree(p, size.0, dx);
    EqualSizesAgree(q, size.1, dy);
    CoordWithin(p, size.0, size.0, dx);
    CoordWithin(q, size.1, size.1, dy);
    BilinearAtTexel(tex, size.0, size.1, LoadCoord(p, size.0, dx), LoadCoord(q, size.1, dy));
  }

  /** One-texel axes aside, it is also necessary: the two lookups agree everywhere exactly
      when each axis of the resource has the pass's size or a single texel. */
  lemma RewriteExactIff(size: (int, int), out: (int, int))
    requires 0 < size.0 && 0 < size.1 && 0 < out.0 && 0 < out.1
    ensures (forall tex: Texture, p, q, dx, dy :: 0 <= p < out.0 && 0 <= q < out.1 ==>
               SampleOffset(tex, size, out, p, q, dx, dy) == LoadOffset(tex, size, p, q, dx, dy))
            <==> ((size.0 == out.0 || size.0 == 1) && (size.1 == out.1 || size.1 == 1))
  {
    if (size.0 == out.0 || size.0 == 1) && (size.1 == out.1 || size.1 == 1) {
      forall tex: Texture, p, q, dx, dy | 0 <= p < out.0 && 0 <= q < out.1
        ensures SampleOffset(tex, size, out, p, q, dx, dy) == LoadOffset(tex, size, p, q, dx, dy)
      {
        AgreeOnCoords(tex, size, out, p, q, dx, dy);
      }
    } else if size.0 != out.0 && size.0 != 1 {
      var p := OtherSizesPart(out.0, size.0);
      PartOnX(size, out, p, 0);
      var ramp: Texture := (i, j) => i as real;
      assert SampleOffset(ramp, size, out, p, 0, 0, 0) != LoadOffset(ramp, size, p, 0, 0, 0);
    } else {
      var q := OtherSizesPart(out.1, size.1);
      PartOnY(size, out, 0, q);
      var ramp: Texture := (i, j) => j as real;
      assert SampleOffset(ramp, size, out, 0, q, 0, 0) != LoadOffset(ramp, size, 0, q, 0, 0);
    }
  }

  lemma AgreeOnCoords(tex: Texture, size: (int, int), out: (int, int), p: int, q: int, dx: int, dy: int)
    requires 0 < size.0 && 0 < size.1 && 0 < out.0 && 0 < out.1
    requires (size.0 == out.0 || size.0 == 1) && (size.1 == out.1 || size.1 == 1)
    ensures SampleOffset(tex, size, out, p, q, dx, dy) == LoadOffset(tex, size, p, q, dx, dy)
  {
    hide SampleCoord, Bilinear;
    if size.0 == out.0 { EqualSizesAgree(p, size.0, dx); } else { UnitSizeAgrees(p, out.0, dx); }
    if size.1 == out.1 { EqualSizesAgree(q, size.1, dy); } else { UnitSizeAgrees(q, out.1, dy); }
    CoordWithin(p, out.0, size.0, dx);
    CoordWithin(q, out.1, size.1, dy);
    BilinearAtTexel(tex, size.0, size.1, LoadCoord(p, size.0, dx), LoadCoord(q, size.1, dy));
  }

  lemma PartOnX(size: (int, int), out: (int, int), p: int, q: int)
    requires 0 < size.0 && 0 < size.1 && 0 < out.0 && 0 < out.1
    requires SampleCoord(p, out.0, size.0, 0) != LoadCoord(p, size.0, 0) as real
    ensures var ramp: Texture := (i, j) => i as real;
      SampleOffset(ramp, size, out, p, q, 0, 0) != LoadOffset(ramp, size, p, q, 0, 0)
  {
    hide SampleCoord, Bilinear;
    CoordWithin(p, out.0, size.0, 0);
    RampX(size.0, size.1, SampleCoord(p, out.0, size.0, 0), SampleCoord(q, out.1, size.1, 0));
  }

  lemma PartOnY(size: (int, int), out: (int, int), p: int, q: int)
    requires 0 < size.0 && 0 < size.1 && 0 < out.0 && 0 < out.1
    requires SampleCoord(q, out.1, size.1, 0) != LoadCoord(q, size.1, 0) as real
    ensures var ramp: Texture := (i, j) => j as real;
      SampleOffset(ramp, size, out, p, q, 0, 0) != LoadOffset(ramp, size, p, q, 0, 0)
  {
    hide SampleCoord, Bilinear;
    CoordWithin(q, out.1, size.1, 0);
    RampY(size.0, size.1, SampleCoord(p, out.0, size.0, 0), SampleCoord(q, out.1, size.1, 0));
  }
}

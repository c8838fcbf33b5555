/** Feathered composition in exact arithmetic. */
module ComposeLaws {
  import opened Arith
  import opened Frames
  import opened Compose

  const REAL_OPS: Ops<real> := Ops(0.0, (a: real, b: real) => a + b, (v: real, w: int) => v * w as real)

  // ---- from sums to bytes -------------------------------------------------------------------------

  function ToByte(v: real): Byte {
    var c := if v <= 0.0 then 0.0 else if v >= 1.0 then 1.0 else v;
    (c * 255.0 + 0.5).Floor
  }

  function Divisor(weight: int): real { if weight == 0 then 1.0 else weight as real }

  function GpuDivisor(weight: int): real { if weight as real > 1.0 then weight as real else 1.0 }

  function Finish(s: Sums<real>, divisor: real): Rgba8
    requires divisor != 0.0
  {
    Rgba8(ToByte(s.r / divisor), ToByte(s.g / divisor), ToByte(s.b / divisor), 255)
  }

  /** The composed frame. */
  ghost function Composed(tiles: seq<Tile<real>>, window: int, x: int, y: int): Rgba8
    requires AllValid(tiles)
  {
    var s := Blend(REAL_OPS, tiles, window, x, y);
    Finish(s, Divisor(s.weight))
  }

  // ---- weights ---------------------------------------------------------------------------------------

  lemma WeightIsPositive<V>(t: Tile<V>, window: int, px: int, py: int)
    requires Covers(t, px, py)
    ensures 0 <= window ==> 0 <= Weight(t, window, px, py)
    ensures 1 <= window ==> 1 <= Weight(t, window, px, py)
  {
  }

  ghost predicate CoveredBy<V>(tiles: seq<Tile<V>>, k: int, px: int, py: int) {
    0 <= k < |tiles| && Covers(tiles[k], px, py)
  }

  /** The total weight is positive exactly on pixels some tile covers. */
  lemma {:induction false} WeightPositiveIff<V>(ops: Ops<V>, tiles: seq<Tile<V>>, window: int, px: int, py: int)
    requires AllValid(tiles) && 1 <= window
    ensures 0 <= Blend(ops, tiles, window, px, py).weight
    ensures 1 <= Blend(ops, tiles, window, px, py).weight <==> exists k :: CoveredBy(tiles, k, px, py)
  {
    if tiles != [] {
      var n := |tiles| - 1;
      var rest := tiles[..n];
      WeightPositiveIff(ops, rest, window, px, py);
      if Covers(tiles[n], px, py) {
        WeightIsPositive(tiles[n], window, px, py);
        assert CoveredBy(tiles, n, px, py);
      }
      if k :| CoveredBy(rest, k, px, py) {
        assert CoveredBy(tiles, k, px, py);
      }
      if k :| CoveredBy(tiles, k, px, py) && k < n {
        assert CoveredBy(rest, k, px, py);
      }
    }
  }

  lemma {:induction false} WeightNotNegative<V>(ops: Ops<V>, tiles: seq<Tile<V>>, window: int, px: int, py: int)
    requires AllValid(tiles) && 0 <= window
    ensures 0 <= Blend(ops, tiles, window, px, py).weight
  {
    if tiles != [] {
      var n := |tiles| - 1;
      WeightNotNegative(ops, tiles[..n], window, px, py);
      if Covers(tiles[n], px, py) { WeightIsPositive(tiles[n], window, px, py); }
    }
  }

  /** The shader's max(weightSum, 1) and the CPU's `weight || 1` are one divisor. */
  lemma OneDivisor(tiles: seq<Tile<real>>, window: nat, px: int, py: int)
    requires AllValid(tiles)
    ensures var w := Blend(REAL_OPS, tiles, window, px, py).weight; GpuDivisor(w) == Divisor(w)
  {
    WeightNotNegative(REAL_OPS, tiles, window, px, py);
  }

  // ---- values ----------------------------------------------------------------------------------------

  function Channel(s: Sums<real>, channel: nat): real {
    if channel == 0 then s.r else if channel == 1 then s.g else s.b
  }

  /** Every tile over the pixel has a value between lo and hi there. */
  ghost predicate Within(tiles: seq<Tile<real>>, channel: nat, px: int, py: int, lo: real, hi: real)
    requires AllValid(tiles) && channel < 3
  {
    forall k :: 0 <= k < |tiles| && Covers(tiles[k], px, py) ==> lo <= Sample(tiles[k], channel, px, py) <= hi
  }

  lemma ScaledBetween(lo: real, v: real, hi: real, w: real)
    requires lo <= v <= hi && 0.0 <= w
    ensures lo * w <= v * w <= hi * w
  {
    assert (v - lo) * w >= 0.0 && (hi - v) * w >= 0.0;
  }

  ghost predicate Between(s: Sums<real>, channel: nat, lo: real, hi: real) {
    lo * s.weight as real <= Channel(s, channel) <= hi * s.weight as real
  }

  lemma ShareArith(sum: real, weight: int, v: real, w: int, lo: real, hi: real)
    requires lo * weight as real <= sum <= hi * weight as real && lo <= v <= hi && 0 <= w
    ensures lo * (weight + w) as real <= sum + v * w as real <= hi * (weight + w) as real
  {
    ScaledBetween(lo, v, hi, w as real);
    Distributes(lo, weight, w);
    Distributes(hi, weight, w);
  }

  lemma Distributes(v: real, a: int, b: int)
    ensures v * (a + b) as real == v * a as real + v * b as real
  {
    assert (a + b) as real == a as real + b as real;
  }

  lemma ShareBetween(s: Sums<real>, r: real, g: real, b: real, w: int, channel: nat, lo: real, hi: real)
    requires channel < 3 && 0 <= w && Between(s, channel, lo, hi)
    requires lo <= (if channel == 0 then r else if channel == 1 then g else b) <= hi
    ensures Between(AddShare(REAL_OPS, s, r, g, b, w), channel, lo, hi)
  {
    ShareArith(Channel(s, channel), s.weight, if channel == 0 then r else if channel == 1 then g else b, w, lo, hi);
  }

  lemma TileBetween(s: Sums<real>, t: Tile<real>, window: int, channel: nat, px: int, py: int, lo: real, hi: real)
    requires t.Valid() && channel < 3 && 0 <= window
    requires Covers(t, px, py) ==> lo <= Sample(t, channel, px, py) <= hi
    requires Between(s, channel, lo, hi)
    ensures Between(AddTile(REAL_OPS, s, t, window, px, py), channel, lo, hi)
  {
    hide Sample, Weight, Between, AddShare;
    if Covers(t, px, py) {
      WeightIsPositive(t, window, px, py);
      ShareBetween(s, Sample(t, 0, px, py), Sample(t, 1, px, py), Sample(t, 2, px, py), Weight(t, window, px, py),
                   channel, lo, hi);
    }
  }

  lemma {:induction false} SumsBetween(tiles: seq<Tile<real>>, window: int, channel: nat, px: int, py: int, lo: real, hi: real)
    requires AllValid(tiles) && channel < 3 && 0 <= window && Within(tiles, channel, px, py, lo, hi)
    ensures Between(Blend(REAL_OPS, tiles, window, px, py), channel, lo, hi)
  {
    if tiles == [] {
      assert Between(Sums(0.0, 0.0, 0.0, 0), channel, lo, hi);
    } else {
      hide Between, Sample, AddTile;
      var n := |tiles| - 1;
      assert Within(tiles[..n], channel, px, py, lo, hi);
      SumsBetween(tiles[..n], window, channel, px, py, lo, hi);
      TileBetween(Blend(REAL_OPS, tiles[..n], window, px, py), tiles[n], window, channel, px, py, lo, hi);
    }
  }

  /** A covered pixel is a convex combination of its tiles: no blended value leaves the range of
      the values blended, so tiles that agree are reproduced exactly. */
  lemma BlendIsConvex(tiles: seq<Tile<real>>, window: int, channel: nat, px: int, py: int, lo: real, hi: real)
    requires AllValid(tiles) && channel < 3 && 1 <= window && Within(tiles, channel, px, py, lo, hi)
    requires exists k :: CoveredBy(tiles, k, px, py)
    ensures var s := Blend(REAL_OPS, tiles, window, px, py);
      lo <= Channel(s, channel) / Divisor(s.weight) <= hi
  {
    hide Blend, Within, Covers;
    WeightPositiveIff(REAL_OPS, tiles, window, px, py);
    SumsBetween(tiles, window, channel, px, py, lo, hi);
    var s := Blend(REAL_OPS, tiles, window, px, py);
    DividedBetween(lo, Channel(s, channel), hi, s.weight as real);
  }

  lemma DividedBetween(lo: real, v: real, hi: real, w: real)
    requires 0.0 < w && lo * w <= v <= hi * w
    ensures lo <= v / w <= hi
  {
    var q := v / w;
    assert q * w == v;
    assert q < lo ==> (lo - q) * w > 0.0;
    assert q > hi ==> (q - hi) * w > 0.0;
  }

  /** Where all tiles over a pixel agree, the frame shows their common value. */
  lemma AgreementIsKept(tiles: seq<Tile<real>>, window: int, px: int, py: int, r: real, g: real, b: real)
    requires AllValid(tiles) && 1 <= window && exists k :: CoveredBy(tiles, k, px, py)
    requires Within(tiles, 0, px, py, r, r) && Within(tiles, 1, px, py, g, g) && Within(tiles, 2, px, py, b, b)
    ensures Composed(tiles, window, px, py) == Rgba8(ToByte(r), ToByte(g), ToByte(b), 255)
  {
    BlendIsConvex(tiles, window, 0, px, py, r, r);
    BlendIsConvex(tiles, window, 1, px, py, g, g);
    BlendIsConvex(tiles, window, 2, px, py, b, b);
  }

  // ---- the two composers ------------------------------------------------------------------------------

  /** What one invocation stores. */
  method ShadePixel(descs: array<nat>, data: array<real>, x: nat, y: nat, ghost tiles: seq<Tile<real>>, ghost window: nat)
    returns (pixel: Rgba8)
    requires AllValid(tiles) && Packed(descs[..], data[..], tiles, window)
    ensures pixel == Composed(tiles, window, x, y)
  {
    hide Blend, Packed, ToByte;
    var s := Gather(REAL_OPS, descs, data, x, y, tiles, window);
    OneDivisor(tiles, window, x, y);
    pixel := Finish(s, GpuDivisor(s.weight));
  }

  /** Pack, dispatch one invocation per pixel, store. */
  method ComposeOnGpu(tiles: seq<Tile<real>>, w: nat, h: nat, window: nat, out: array2<Rgba8>) returns (ok: bool)
    requires out.Length0 == w && out.Length1 == h
    modifies out
    ensures ok <==> AllValid(tiles)
    ensures ok ==> forall x, y :: 0 <= x < w && 0 <= y < h ==> out[x, y] == Composed(tiles, window, x, y)
  {
    hide Composed, Packed;
    var packed, descs, data := BuildComposeBuffers(tiles, window);
    if !packed {
      return false;
    }
    var y := 0;
    while y < h
      modifies out
      invariant 0 <= y <= h
      invariant Packed(descs[..], data[..], tiles, window)
      invariant forall i, j :: 0 <= i < w && 0 <= j < y ==> out[i, j] == Composed(tiles, window, i, j)
    {
      var x := 0;
      while x < w
        modifies out
        invariant 0 <= x <= w
        invariant Packed(descs[..], data[..], tiles, window)
        invariant forall i, j :: 0 <= i < w && 0 <= j < h && (j < y || (j == y && i < x)) ==>
          out[i, j] == Composed(tiles, window, i, j)
      {
        out[x, y] := ShadePixel(descs, data, x, y, tiles, window);
        x := x + 1;
      }
      y := y + 1;
    }
    ok := true;
  }

  /** composeTilesToRgba8: the same frame, pixel for pixel. */
  method ComposeOnCpu(tiles: seq<Tile<real>>, w: nat, h: nat, window: nat) returns (rgba: array<Rgba8>)
    requires AllValid(tiles) && InsideFrame(tiles, w, h)
    ensures rgba.Length == w * h
    ensures forall x, y :: 0 <= x < w && 0 <= y < h ==>
      0 <= Pos(w, x, y) < rgba.Length && rgba[Pos(w, x, y)] == Composed(tiles, window, x, y)
  {
    hide Composed, Blend, Finish;
    var a := Scatter(REAL_OPS, tiles, w, h, window);
    rgba := new Rgba8[w * h](_ => OPAQUE_BLACK);
    var i := 0;
    while i < w * h
      modifies rgba
      invariant 0 <= i <= w * h
      invariant forall j :: 0 <= j < i ==> rgba[j] == Finish(a.At(j), Divisor(a.At(j).weight))
    {
      rgba[i] := Finish(a.At(i), Divisor(a.At(i).weight));
      i := i + 1;
    }
    forall x, y | 0 <= x < w && 0 <= y < h
      ensures 0 <= Pos(w, x, y) < rgba.Length && rgba[Pos(w, x, y)] == Composed(tiles, window, x, y)
    {
      PosInRange(w, h, x, y);
      assert Pixel(a, w, h, x, y) == Blend(REAL_OPS, tiles, window, x, y);
      ComposedIs(tiles, window, x, y);
    }
  }

  lemma ComposedIs(tiles: seq<Tile<real>>, window: int, x: int, y: int)
    requires AllValid(tiles)
    ensures var s := Blend(REAL_OPS, tiles, window, x, y); Composed(tiles, window, x, y) == Finish(s, Divisor(s.weight))
  {
  }

  // ---- what a tile gives to a pixel ------------------------------------------------------------------

  /** The feather in pixels: a tile weighs at least `k` exactly as deep as `k` pixels into it, counted from
      1 at each of its four edges, and never more than the window. */
  lemma WeightIsDepth<V>(t: Tile<V>, window: int, px: int, py: int, k: int)
    ensures k <= Weight(t, window, px, py)
            <==> k <= window
                 && k <= px - 4 * t.x + 1 && k <= 4 * (t.x + t.width) - px
                 && k <= py - 4 * t.y + 1 && k <= 4 * (t.y + t.height) - py
  {
  }

  /** The pixels of a tile's quadrupled area. */
  predicate Under<V>(t: Tile<V>, px: int, py: int) {
    4 * t.x <= px < 4 * (t.x + t.width) && 4 * t.y <= py < 4 * (t.y + t.height)
  }

  lemma CoversIs<V>(t: Tile<V>, px: int, py: int)
    ensures Covers(t, px, py) <==> Under(t, px, py)
  {
  }

  /** One more tile adds, under each channel, its value there times that weight, and the weight itself;
      where it does not reach it adds nothing. */
  lemma TileAdds(tiles: seq<Tile<real>>, t: Tile<real>, window: int, px: int, py: int)
    requires AllValid(tiles) && t.Valid()
    ensures AllValid(tiles + [t])
    ensures var s, r := Blend(REAL_OPS, tiles, window, px, py), Blend(REAL_OPS, tiles + [t], window, px, py);
      if Under(t, px, py) then
        var w := Weight(t, window, px, py);
        && r.r == s.r + PlaneValue(t, 0, px, py) * w as real
        && r.g == s.g + PlaneValue(t, 1, px, py) * w as real
        && r.b == s.b + PlaneValue(t, 2, px, py) * w as real
        && r.weight == s.weight + w
      else r == s
  {
    hide Weight, Sample, Under, Covers;
    CoversIs(t, px, py);
    var n := |tiles|;
    assert (tiles + [t])[..n] == tiles && (tiles + [t])[n] == t;
    if Covers(t, px, py) {
      SampleIs(t, 0, px, py);
      SampleIs(t, 1, px, py);
      SampleIs(t, 2, px, py);
    }
  }

  lemma NoTilesNoSums(window: int, px: int, py: int)
    ensures Blend(REAL_OPS, [], window, px, py) == Sums(0.0, 0.0, 0.0, 0)
  {
  }

  /** Planar data: red, green and blue planes one after the other, each in rows of 4 * width. */
  function PlaneValue(t: Tile<real>, channel: nat, px: int, py: int): real {
    var i := channel * (4 * t.width * (4 * t.height)) + (py - 4 * t.y) * (4 * t.width) + (px - 4 * t.x);
    if 0 <= i < |t.rgb| then t.rgb[i] else 0.0
  }

  lemma SampleIs(t: Tile<real>, channel: nat, px: int, py: int)
    requires t.Valid() && Covers(t, px, py) && channel < 3
    ensures Sample(t, channel, px, py) == PlaneValue(t, channel, px, py)
  {
    SampleInRange(t, channel, px, py);
  }

  /** Bytes are nearest, and out-of-range values end at the ends. */
  lemma ByteIsNearest(v: real)
    ensures var b := ToByte(v);
      && (0.0 <= v <= 1.0 ==> b as real - 0.5 <= v * 255.0 < b as real + 0.5)
      && (v <= 0.0 ==> b == 0) && (1.0 <= v ==> b == 255)
  {
  }

  /** A pixel under one tile alone shows that tile's red, green and blue, whatever its weight; a pixel
      under none is opaque black. */
  lemma LonePixel(t: Tile<real>, window: int, px: int, py: int)
    requires t.Valid() && 1 <= window
    ensures Composed([t], window, px, py)
      == if Under(t, px, py)
         then Rgba8(ToByte(PlaneValue(t, 0, px, py)), ToByte(PlaneValue(t, 1, px, py)), ToByte(PlaneValue(t, 2, px, py)), 255)
         else Rgba8(0, 0, 0, 255)
  {
    hide Weight, ToByte, PlaneValue, Blend, Finish, Under, Covers;
    CoversIs(t, px, py);
    AloneIs(t, window, px, py);
    var s := Blend(REAL_OPS, [t], window, px, py);
    if Covers(t, px, py) {
      WeightIsPositive(t, window, px, py);
      FinishLone(s, PlaneValue(t, 0, px, py), PlaneValue(t, 1, px, py), PlaneValue(t, 2, px, py), Weight(t, window, px, py));
    } else {
      FinishNone(s);
    }
  }

  lemma AloneIs(t: Tile<real>, window: int, px: int, py: int)
    requires t.Valid()
    ensures var s, w := Blend(REAL_OPS, [t], window, px, py), Weight(t, window, px, py);
      if Under(t, px, py) then
        && s.r == PlaneValue(t, 0, px, py) * w as real && s.g == PlaneValue(t, 1, px, py) * w as real
        && s.b == PlaneValue(t, 2, px, py) * w as real && s.weight == w
      else s.r == s.g == s.b == 0.0 && s.weight == 0
  {
    hide Weight, PlaneValue, Blend, Under;
    var none: seq<Tile<real>> := [];
    TileAdds(none, t, window, px, py);
    NoTilesNoSums(window, px, py);
    assert none + [t] == [t];
  }

  lemma FinishNone(s: Sums<real>)
    requires s.r == s.g == s.b == 0.0 && s.weight == 0
    ensures Finish(s, Divisor(s.weight)) == Rgba8(0, 0, 0, 255)
  {
    ByteIsNearest(0.0);
    hide ToByte;
    assert 0.0 / 1.0 == 0.0;
  }

  lemma FinishLone(s: Sums<real>, r: real, g: real, b: real, w: int)
    requires 1 <= w && s.r == r * w as real && s.g == g * w as real && s.b == b * w as real && s.weight == w
    ensures Finish(s, Divisor(s.weight)) == Rgba8(ToByte(r), ToByte(g), ToByte(b), 255)
  {
    hide ToByte;
    Unscaled(r, w);
    Unscaled(g, w);
    Unscaled(b, w);
  }

  lemma Unscaled(v: real, w: int)
    requires 1 <= w
    ensures (v * w as real) / w as real == v
  {
  }

  /** Under two tiles each channel is their mean by depth. */
  lemma SharedPixel(a: Tile<real>, b: Tile<real>, window: int, px: int, py: int, channel: nat)
    requires a.Valid() && b.Valid() && 1 <= window && channel < 3
    requires Under(a, px, py) && Under(b, px, py)
    ensures var s := Blend(REAL_OPS, [a, b], window, px, py);
      var v, w := Weight(a, window, px, py), Weight(b, window, px, py);
      s.weight == v + w
      && Channel(s, channel) / Divisor(s.weight) * (v + w) as real
         == PlaneValue(a, channel, px, py) * v as real + PlaneValue(b, channel, px, py) * w as real
  {
    hide Weight, PlaneValue, Blend, Divisor, Covers, Channel, Under;
    PairSums(a, b, window, px, py, channel);
    CoversIs(a, px, py);
    CoversIs(b, px, py);
    WeightIsPositive(a, window, px, py);
    WeightIsPositive(b, window, px, py);
    var s := Blend(REAL_OPS, [a, b], window, px, py);
    Divided(Channel(s, channel), s.weight);
  }

  lemma PairSums(a: Tile<real>, b: Tile<real>, window: int, px: int, py: int, channel: nat)
    requires a.Valid() && b.Valid() && channel < 3 && Under(a, px, py) && Under(b, px, py)
    ensures var s := Blend(REAL_OPS, [a, b], window, px, py);
      var v, w := Weight(a, window, px, py), Weight(b, window, px, py);
      s.weight == v + w
      && Channel(s, channel) == PlaneValue(a, channel, px, py) * v as real + PlaneValue(b, channel, px, py) * w as real
  {
    hide Weight, PlaneValue, Blend, Under;
    AloneIs(a, window, px, py);
    TileAdds([a], b, window, px, py);
    assert [a] + [b] == [a, b];
  }

  lemma Divided(v: real, w: int)
    requires 1 <= w
    ensures v / Divisor(w) * w as real == v
  {
  }
}

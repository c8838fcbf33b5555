/** Feathered tile composition: the packed buffers and per-pixel gather of
    src/core/realesrgan-compose.ts against the scatter loop of
    src/shared/realesrgan-compose-kernels.js. */
module Compose {
  import opened Arith
  import opened Frames

  const SCALE := 4

  /** A tile and its planar 4x result. */
  datatype Tile<!V> = Tile(x: nat, y: nat, width: nat, height: nat, rgb: seq<V>) {
    function BaseX(): nat { x * SCALE }

    function BaseY(): nat { y * SCALE }

    function UpW(): nat { width * SCALE }

    function UpH(): nat { height * SCALE }

    function Plane(): nat { UpW() * UpH() }

    function Length(): nat { 3 * Plane() }

    predicate Valid() { |rgb| == Length() }
  }

  /** The channel arithmetic, about which nothing is known: addition need not even be associative. */
  datatype Ops<!V> = Ops(zero: V, add: (V, V) -> V, scale: (V, int) -> V)

  datatype Sums<!V> = Sums(r: V, g: V, b: V, weight: int)

  // ---- one tile's share of a pixel ---------------------------------------------------------------

  function Min(a: int, b: int): int { if a <= b then a else b }

  /** Distance from the edge plus one, held to the feather window. */
  function Ramp(i: int, length: int, window: int): int { Min(Min(i, length - 1 - i) + 1, window) }

  predicate Covers<V>(t: Tile<V>, px: int, py: int) {
    t.BaseX() <= px < t.BaseX() + t.UpW() && t.BaseY() <= py < t.BaseY() + t.UpH()
  }

  function Weight<V>(t: Tile<V>, window: int, px: int, py: int): int {
    Min(Ramp(px - t.BaseX(), t.UpW(), window), Ramp(py - t.BaseY(), t.UpH(), window))
  }

  /** The tile's own value at an output pixel it covers. */
  function Sample<V>(t: Tile<V>, channel: nat, px: int, py: int): V
    requires t.Valid() && Covers(t, px, py) && channel < 3
  {
    SampleInRange(t, channel, px, py);
    t.rgb[channel * t.Plane() + Pos(t.UpW(), px - t.BaseX(), py - t.BaseY())]
  }

  lemma SampleInRange<V>(t: Tile<V>, channel: nat, px: int, py: int)
    requires Covers(t, px, py) && channel < 3
    ensures 0 <= channel * t.Plane() + Pos(t.UpW(), px - t.BaseX(), py - t.BaseY()) < t.Length()
  {
    PosInRange(t.UpW(), t.UpH(), px - t.BaseX(), py - t.BaseY());
  }

  function AddShare<V>(ops: Ops<V>, s: Sums<V>, r: V, g: V, b: V, weight: int): Sums<V> {
    Sums(ops.add(s.r, ops.scale(r, weight)), ops.add(s.g, ops.scale(g, weight)), ops.add(s.b, ops.scale(b, weight)),
         s.weight + weight)
  }

  function AddTile<V>(ops: Ops<V>, s: Sums<V>, t: Tile<V>, window: int, px: int, py: int): Sums<V>
    requires t.Valid()
  {
    if !Covers(t, px, py) then s
    else AddShare(ops, s, Sample(t, 0, px, py), Sample(t, 1, px, py), Sample(t, 2, px, py), Weight(t, window, px, py))
  }

  ghost predicate AllValid<V>(tiles: seq<Tile<V>>) { forall i :: 0 <= i < |tiles| ==> tiles[i].Valid() }

  /** The pixel's sums, accumulated in tile order. */
  ghost function Blend<V>(ops: Ops<V>, tiles: seq<Tile<V>>, window: int, px: int, py: int): Sums<V>
    requires AllValid(tiles)
  {
    if tiles == [] then Sums(ops.zero, ops.zero, ops.zero, 0)
    else
      var n := |tiles| - 1;
      AddTile(ops, Blend(ops, tiles[..n], window, px, py), tiles[n], window, px, py)
  }

  lemma BlendStep<V>(ops: Ops<V>, tiles: seq<Tile<V>>, k: nat, window: int, px: int, py: int)
    requires AllValid(tiles) && k < |tiles|
    ensures Blend(ops, tiles[..k + 1], window, px, py)
            == AddTile(ops, Blend(ops, tiles[..k], window, px, py), tiles[k], window, px, py)
  {
    assert tiles[..k + 1][..k] == tiles[..k];
  }

  // ---- packing ---------------------------------------------------------------------------------------

  const DESC_WORDS := 8

  /** Where tile `k`'s floats start. */
  function Offset<V>(tiles: seq<Tile<V>>, k: nat): nat
    requires k <= |tiles|
  {
    if k == 0 then 0 else Offset(tiles, k - 1) + tiles[k - 1].Length()
  }

  lemma {:induction false} OffsetMono<V>(tiles: seq<Tile<V>>, j: nat, k: nat)
    requires j <= k <= |tiles|
    ensures Offset(tiles, j) <= Offset(tiles, k)
  {
    if j < k { OffsetMono(tiles, j, k - 1); }
  }

  ghost predicate DescIs<V>(descs: seq<nat>, tiles: seq<Tile<V>>, window: nat, k: nat)
    requires k < |tiles|
  {
    var t := tiles[k];
    && DESC_WORDS * (k + 1) <= |descs|
    && descs[DESC_WORDS * k..DESC_WORDS * (k + 1)]
       == [t.BaseX(), t.BaseY(), t.UpW(), t.UpH(), Offset(tiles, k), window, 0, 0]
  }

  ghost predicate SliceIs<V>(data: seq<V>, tiles: seq<Tile<V>>, k: nat)
    requires k < |tiles|
  {
    && Offset(tiles, k) + tiles[k].Length() <= |data|
    && data[Offset(tiles, k)..Offset(tiles, k) + tiles[k].Length()] == tiles[k].rgb
  }

  ghost predicate Packed<V>(descs: seq<nat>, data: seq<V>, tiles: seq<Tile<V>>, window: nat) {
    && |descs| == DESC_WORDS * |tiles| && |data| == Offset(tiles, |tiles|)
    && forall k :: 0 <= k < |tiles| ==> DescIs(descs, tiles, window, k) && SliceIs(data, tiles, k)
  }

  method TotalFloats<V>(tiles: seq<Tile<V>>) returns (total: nat)
    ensures total == Offset(tiles, |tiles|)
  {
    total := 0;
    for i := 0 to |tiles|
      invariant total == Offset(tiles, i)
    {
      total := total + 3 * (tiles[i].width * 4) * (tiles[i].height * 4);
    }
  }

  /** buildComposeBuffers; `ok` is false for the error of a tile of the wrong length. */
  method BuildComposeBuffers<V(0)>(tiles: seq<Tile<V>>, window: nat) returns (ok: bool, descs: array<nat>, data: array<V>)
    ensures ok <==> AllValid(tiles)
    ensures fresh(descs) && fresh(data)
    ensures ok ==> Packed(descs[..], data[..], tiles, window)
  {
    hide DescIs, SliceIs;
    var total := TotalFloats(tiles);
    descs := new nat[|tiles| * DESC_WORDS];
    data := new V[total];
    var offset, index := 0, 0;
    while index < |tiles|
      modifies descs, data
      invariant 0 <= index <= |tiles| && offset == Offset(tiles, index) <= total
      invariant forall k :: 0 <= k < index ==> tiles[k].Valid() && DescIs(descs[..], tiles, window, k)
      invariant forall k :: 0 <= k < index ==> SliceIs(data[..], tiles, k)
    {
      var tile := tiles[index];
      OffsetMono(tiles, index + 1, |tiles|);
      if |tile.rgb| != tile.Length() {
        return false, descs, data;
      }
      WriteDesc(descs, index, tile, offset, window, tiles);
      CopySlice(data, tile.rgb, offset, tiles, index);
      offset := offset + tile.Length();
      index := index + 1;
    }
    ok := true;
  }

  method WriteDesc<V>(descs: array<nat>, index: nat, tile: Tile<V>, offset: nat, window: nat, ghost tiles: seq<Tile<V>>)
    requires index < |tiles| && tile == tiles[index] && offset == Offset(tiles, index)
    requires descs.Length == DESC_WORDS * |tiles|
    requires forall k :: 0 <= k < index ==> DescIs(descs[..], tiles, window, k)
    modifies descs
    ensures forall k :: 0 <= k <= index ==> DescIs(descs[..], tiles, window, k)
  {
    var at := index * DESC_WORDS;
    ghost var before := descs[..];
    descs[at] := tile.x * 4;
    descs[at + 1] := tile.y * 4;
    descs[at + 2] := tile.UpW();
    descs[at + 3] := tile.UpH();
    descs[at + 4] := offset;
    descs[at + 5] := window;
    descs[at + 6] := 0;
    descs[at + 7] := 0;
    forall k | 0 <= k <= index
      ensures DescIs(descs[..], tiles, window, k)
    {
      if k < index {
        assert DescIs(before, tiles, window, k);
        assert descs[..][DESC_WORDS * k..DESC_WORDS * (k + 1)] == before[DESC_WORDS * k..DESC_WORDS * (k + 1)];
      }
    }
  }

  method CopySlice<V>(data: array<V>, rgb: seq<V>, offset: nat, ghost tiles: seq<Tile<V>>, ghost index: nat)
    requires index < |tiles| && rgb == tiles[index].rgb && tiles[index].Valid()
    requires offset == Offset(tiles, index) && offset + |rgb| <= data.Length
    requires forall k :: 0 <= k < index ==> SliceIs(data[..], tiles, k)
    modifies data
    ensures forall k :: 0 <= k <= index ==> SliceIs(data[..], tiles, k)
  {
    ghost var before := data[..];
    forall j | 0 <= j < |rgb| {
      data[offset + j] := rgb[j];
    }
    forall k | 0 <= k <= index
      ensures SliceIs(data[..], tiles, k)
    {
      if k < index {
        assert SliceIs(before, tiles, k);
        OffsetMono(tiles, k + 1, index);
        var a, b := Offset(tiles, k), Offset(tiles, k) + tiles[k].Length();
        assert data[..][a..b] == before[a..b];
      } else {
        assert data[..][offset..offset + |rgb|] == rgb;
      }
    }
  }

  function End<V>(tiles: seq<Tile<V>>, k: nat): nat
    requires k < |tiles|
  {
    Offset(tiles, k) + tiles[k].Length()
  }

  /** The slices are disjoint and leave nothing out: every float belongs to exactly one tile. */
  lemma {:induction false} SlicesPartition<V>(tiles: seq<Tile<V>>, n: nat, i: nat) returns (k: nat)
    requires n <= |tiles| && i < Offset(tiles, n)
    ensures k < n && Offset(tiles, k) <= i < End(tiles, k)
    ensures forall j :: 0 <= j < n && Offset(tiles, j) <= i < End(tiles, j) ==> j == k
  {
    if i < Offset(tiles, n - 1) {
      k := SlicesPartition(tiles, n - 1, i);
    } else {
      k := n - 1;
    }
    forall j | 0 <= j < k
      ensures End(tiles, j) <= Offset(tiles, k)
    {
      OffsetMono(tiles, j + 1, k);
    }
    forall j | k < j < n
      ensures End(tiles, k) <= Offset(tiles, j)
    {
      OffsetMono(tiles, k + 1, j);
    }
  }

  // ---- the shader's gather ------------------------------------------------------------------------------

  lemma DescReads<V>(descs: seq<nat>, data: seq<V>, tiles: seq<Tile<V>>, window: nat, k: nat)
    requires Packed(descs, data, tiles, window) && k < |tiles|
    ensures DESC_WORDS * k + DESC_WORDS <= |descs|
    ensures descs[DESC_WORDS * k] == tiles[k].BaseX() && descs[DESC_WORDS * k + 1] == tiles[k].BaseY()
    ensures descs[DESC_WORDS * k + 2] == tiles[k].UpW() && descs[DESC_WORDS * k + 3] == tiles[k].UpH()
    ensures descs[DESC_WORDS * k + 4] == Offset(tiles, k) && descs[DESC_WORDS * k + 5] == window
  {
    var d := descs[DESC_WORDS * k..DESC_WORDS * (k + 1)];
    assert DescIs(descs, tiles, window, k);
    assert forall j :: 0 <= j < DESC_WORDS ==> d[j] == descs[DESC_WORDS * k + j];
    assert d[0] == tiles[k].BaseX() && d[1] == tiles[k].BaseY() && d[2] == tiles[k].UpW() && d[3] == tiles[k].UpH();
    assert d[4] == Offset(tiles, k) && d[5] == window;
  }

  lemma DataReads<V>(descs: seq<nat>, data: seq<V>, tiles: seq<Tile<V>>, window: nat, k: nat, channel: nat, px: int, py: int)
    requires Packed(descs, data, tiles, window) && AllValid(tiles) && k < |tiles|
    requires Covers(tiles[k], px, py) && channel < 3
    ensures var t := tiles[k];
      var i := Offset(tiles, k) + Pos(t.UpW(), px - t.BaseX(), py - t.BaseY()) + channel * t.Plane();
      0 <= i < |data| && data[i] == Sample(t, channel, px, py)
  {
    var t := tiles[k];
    assert SliceIs(data, tiles, k);
    SampleInRange(t, channel, px, py);
    var j := channel * t.Plane() + Pos(t.UpW(), px - t.BaseX(), py - t.BaseY());
    assert data[Offset(tiles, k)..Offset(tiles, k) + t.Length()][j] == t.rgb[j];
  }

  /** The loop body of the compute shader. */
  method GatherTile<V>(ops: Ops<V>, descs: array<nat>, data: array<V>, t: nat, px: nat, py: nat, s: Sums<V>,
                       ghost tiles: seq<Tile<V>>, ghost window: nat) returns (r: Sums<V>)
    requires AllValid(tiles) && Packed(descs[..], data[..], tiles, window) && t < |tiles|
    ensures r == AddTile(ops, s, tiles[t], window, px, py)
  {
    hide Packed, Offset;
    DescReads(descs[..], data[..], tiles, window, t);
    var at := DESC_WORDS * t;
    var upW, upH := descs[at + 2], descs[at + 3];
    var lx, ly := px - descs[at], py - descs[at + 1];
    if lx < 0 || ly < 0 || lx >= upW || ly >= upH {
      return s;
    }
    DataReads(descs[..], data[..], tiles, window, t, 0, px, py);
    DataReads(descs[..], data[..], tiles, window, t, 1, px, py);
    DataReads(descs[..], data[..], tiles, window, t, 2, px, py);
    var feather := descs[at + 5];
    var fx := Min(Min(lx, upW - 1 - lx) + 1, feather);
    var fy := Min(Min(ly, upH - 1 - ly) + 1, feather);
    var plane := upW * upH;
    var pixel := descs[at + 4] + ly * upW + lx;
    r := AddShare(ops, s, data[pixel], data[pixel + plane], data[pixel + 2 * plane], Min(fx, fy));
  }

  /** One invocation of the compute shader. */
  method Gather<V>(ops: Ops<V>, descs: array<nat>, data: array<V>, px: nat, py: nat,
                   ghost tiles: seq<Tile<V>>, ghost window: nat) returns (s: Sums<V>)
    requires AllValid(tiles) && Packed(descs[..], data[..], tiles, window)
    ensures s == Blend(ops, tiles, window, px, py)
  {
    s := Sums(ops.zero, ops.zero, ops.zero, 0);
    var count := descs.Length / DESC_WORDS;
    var t := 0;
    while t < count
      invariant 0 <= t <= count == |tiles|
      invariant s == Blend(ops, tiles[..t], window, px, py)
    {
      BlendStep(ops, tiles, t, window, px, py);
      s := GatherTile(ops, descs, data, t, px, py, s, tiles, window);
      t := t + 1;
    }
    assert tiles[..count] == tiles;
  }

  // ---- the CPU's scatter ---------------------------------------------------------------------------------

  method FeatherRamp(length: nat, window: int) returns (ramp: array<int>)
    ensures fresh(ramp) && ramp.Length == length
    ensures forall i :: 0 <= i < length ==> ramp[i] == Ramp(i, length, window)
  {
    ramp := new int[length];
    for i := 0 to length
      invariant forall k :: 0 <= k < i ==> ramp[k] == Ramp(k, length, window)
    {
      ramp[i] := Min(Min(i, length - 1 - i) + 1, window);
    }
  }

  /** Three accumulator planes of `pixels` values and the weights. */
  class Accumulator<V> {
    const pixels: nat
    const acc: array<V>
    const weights: array<int>

    ghost predicate Valid() { acc.Length == 3 * pixels && weights.Length == pixels }

    constructor (pixels: nat, zero: V)
      ensures Valid() && this.pixels == pixels && fresh(acc) && fresh(weights)
      ensures forall j :: 0 <= j < pixels ==> At(j) == Sums(zero, zero, zero, 0)
    {
      this.pixels := pixels;
      acc := new V[3 * pixels](_ => zero);
      weights := new int[pixels](_ => 0);
    }

    function At(j: int): Sums<V>
      requires Valid() && 0 <= j < pixels
      reads acc, weights
    {
      Sums(acc[j], acc[pixels + j], acc[2 * pixels + j], weights[j])
    }

    method Add(ops: Ops<V>, j: nat, r: V, g: V, b: V, weight: int)
      requires Valid() && j < pixels
      modifies acc, weights
      ensures forall i :: 0 <= i < pixels ==>
        At(i) == if i == j then AddShare(ops, old(At(j)), r, g, b, weight) else old(At(i))
    {
      acc[j] := ops.add(acc[j], ops.scale(r, weight));
      acc[pixels + j] := ops.add(acc[pixels + j], ops.scale(g, weight));
      acc[2 * pixels + j] := ops.add(acc[2 * pixels + j], ops.scale(b, weight));
      weights[j] := weights[j] + weight;
    }
  }

  /** The accumulator at an output pixel. */
  ghost function Pixel<V>(a: Accumulator<V>, w: nat, h: nat, x: int, y: int): Sums<V>
    requires a.Valid() && a.pixels == w * h && 0 <= x < w && 0 <= y < h
    reads a.acc, a.weights
  {
    PosInRange(w, h, x, y);
    a.At(Pos(w, x, y))
  }

  /** Inside a tile, in row order, before (col, row). */
  predicate Before<V>(t: Tile<V>, col: int, row: int, x: int, y: int) {
    y - t.BaseY() < row || (y - t.BaseY() == row && x - t.BaseX() < col)
  }

  ghost predicate InsideFrame<V>(tiles: seq<Tile<V>>, w: nat, h: nat) {
    forall i :: 0 <= i < |tiles| ==>
      tiles[i].BaseX() + tiles[i].UpW() <= w && tiles[i].BaseY() + tiles[i].UpH() <= h
  }

  /** Tile `t` is added up to (col, row) on top of the sums `base`. */
  ghost predicate Progressed<V>(ops: Ops<V>, a: Accumulator<V>, w: nat, h: nat, t: Tile<V>, window: int,
                                base: (int, int) -> Sums<V>, col: int, row: int)
    requires a.Valid() && a.pixels == w * h && t.Valid()
    reads a.acc, a.weights
  {
    forall x, y :: 0 <= x < w && 0 <= y < h ==>
      Pixel(a, w, h, x, y) == if Before(t, col, row, x, y) then AddTile(ops, base(x, y), t, window, x, y) else base(x, y)
  }

  method ScatterTile<V>(ops: Ops<V>, a: Accumulator<V>, w: nat, h: nat, t: Tile<V>, window: int,
                        ghost base: (int, int) -> Sums<V>)
    requires a.Valid() && a.pixels == w * h && t.Valid()
    requires t.BaseX() + t.UpW() <= w && t.BaseY() + t.UpH() <= h
    requires Progressed(ops, a, w, h, t, window, base, 0, 0)
    modifies a.acc, a.weights
    ensures Progressed(ops, a, w, h, t, window, base, 0, t.UpH())
  {
    var fx := FeatherRamp(t.UpW(), window);
    var fy := FeatherRamp(t.UpH(), window);
    var row := 0;
    while row < t.UpH()
      modifies a.acc, a.weights
      invariant 0 <= row <= t.UpH()
      invariant Progressed(ops, a, w, h, t, window, base, 0, row)
    {
      var col := 0;
      while col < t.UpW()
        modifies a.acc, a.weights
        invariant 0 <= col <= t.UpW()
        invariant Progressed(ops, a, w, h, t, window, base, col, row)
      {
        var x, y := t.BaseX() + col, t.BaseY() + row;
        SampleInRange(t, 0, x, y);
        SampleInRange(t, 1, x, y);
        SampleInRange(t, 2, x, y);
        PosInRange(w, h, x, y);
        var src, out := row * t.UpW() + col, (t.BaseY() + row) * w + t.BaseX() + col;
        ScatterPixel(ops, a, w, h, t, window, base, col, row,
                     t.rgb[src], t.rgb[t.Plane() + src], t.rgb[2 * t.Plane() + src], Min(fx[col], fy[row]));
        col := col + 1;
      }
      row := row + 1;
    }
  }

  method ScatterPixel<V>(ops: Ops<V>, a: Accumulator<V>, w: nat, h: nat, t: Tile<V>, window: int,
                         ghost base: (int, int) -> Sums<V>, col: nat, row: nat, r: V, g: V, b: V, weight: int)
    requires a.Valid() && a.pixels == w * h && t.Valid()
    requires t.BaseX() + t.UpW() <= w && t.BaseY() + t.UpH() <= h && col < t.UpW() && row < t.UpH()
    requires Progressed(ops, a, w, h, t, window, base, col, row)
    requires var x, y := t.BaseX() + col, t.BaseY() + row;
      && r == Sample(t, 0, x, y) && g == Sample(t, 1, x, y) && b == Sample(t, 2, x, y)
      && weight == Weight(t, window, x, y)
    modifies a.acc, a.weights
    ensures Progressed(ops, a, w, h, t, window, base, col + 1, row)
  {
    hide Sample, Weight;
    var x0, y0 := t.BaseX() + col, t.BaseY() + row;
    PosInRange(w, h, x0, y0);
    a.Add(ops, Pos(w, x0, y0), r, g, b, weight);
    forall x, y | 0 <= x < w && 0 <= y < h
      ensures Pixel(a, w, h, x, y)
              == if Before(t, col + 1, row, x, y) then AddTile(ops, base(x, y), t, window, x, y) else base(x, y)
    {
      PosInRange(w, h, x, y);
      if Pos(w, x, y) == Pos(w, x0, y0) {
        PosInjective(w, x, y, x0, y0);
      }
      assert Pixel(a, w, h, x, y) ==
             if x == x0 && y == y0 then AddShare(ops, old(Pixel(a, w, h, x, y)), r, g, b, weight)
             else old(Pixel(a, w, h, x, y));
    }
  }

  ghost predicate Accumulated<V>(ops: Ops<V>, a: Accumulator<V>, w: nat, h: nat, tiles: seq<Tile<V>>, window: int)
    requires a.Valid() && a.pixels == w * h && AllValid(tiles)
    reads a.acc, a.weights
  {
    forall x, y :: 0 <= x < w && 0 <= y < h ==> Pixel(a, w, h, x, y) == Blend(ops, tiles, window, x, y)
  }

  ghost function Blends<V>(ops: Ops<V>, tiles: seq<Tile<V>>, window: int): (f: (int, int) -> Sums<V>)
    requires AllValid(tiles)
    ensures forall x, y :: f(x, y) == Blend(ops, tiles, window, x, y)
  {
    (x, y) => Blend(ops, tiles, window, x, y)
  }

  lemma NothingYet<V>(ops: Ops<V>, a: Accumulator<V>, w: nat, h: nat, tiles: seq<Tile<V>>, window: int)
    requires a.Valid() && a.pixels == w * h && AllValid(tiles)
    requires forall j :: 0 <= j < a.pixels ==> a.At(j) == Sums(ops.zero, ops.zero, ops.zero, 0)
    ensures Accumulated(ops, a, w, h, tiles[..0], window)
  {
    hide Pos;
    forall x, y | 0 <= x < w && 0 <= y < h
      ensures Pixel(a, w, h, x, y) == Blend(ops, tiles[..0], window, x, y)
    {
      PosInRange(w, h, x, y);
    }
  }

  lemma BeforeTile<V>(ops: Ops<V>, a: Accumulator<V>, w: nat, h: nat, tiles: seq<Tile<V>>, k: nat, window: int,
                      base: (int, int) -> Sums<V>)
    requires a.Valid() && a.pixels == w * h && AllValid(tiles) && k < |tiles|
    requires Accumulated(ops, a, w, h, tiles[..k], window)
    requires forall x, y :: base(x, y) == Blend(ops, tiles[..k], window, x, y)
    ensures Progressed(ops, a, w, h, tiles[k], window, base, 0, 0)
  {
    hide Blend, AddShare, Sample, Weight;
    forall x, y | 0 <= x < w && 0 <= y < h
      ensures Pixel(a, w, h, x, y) == if Before(tiles[k], 0, 0, x, y)
                                      then AddTile(ops, base(x, y), tiles[k], window, x, y) else base(x, y)
    {
      assert base(x, y) == Blend(ops, tiles[..k], window, x, y);
    }
  }

  lemma AfterTile<V>(ops: Ops<V>, a: Accumulator<V>, w: nat, h: nat, tiles: seq<Tile<V>>, k: nat, window: int,
                     base: (int, int) -> Sums<V>)
    requires a.Valid() && a.pixels == w * h && AllValid(tiles) && k < |tiles|
    requires Progressed(ops, a, w, h, tiles[k], window, base, 0, tiles[k].UpH())
    requires forall x, y :: base(x, y) == Blend(ops, tiles[..k], window, x, y)
    ensures Accumulated(ops, a, w, h, tiles[..k + 1], window)
  {
    hide Blend, AddShare, Sample, Weight;
    forall x, y | 0 <= x < w && 0 <= y < h
      ensures Pixel(a, w, h, x, y) == Blend(ops, tiles[..k + 1], window, x, y)
    {
      BlendStep(ops, tiles, k, window, x, y);
      assert base(x, y) == Blend(ops, tiles[..k], window, x, y);
    }
  }

  /** The CPU's accumulation over all tiles: at every pixel the very sums the shader gathers, in
      the same order of additions. */
  method Scatter<V>(ops: Ops<V>, tiles: seq<Tile<V>>, w: nat, h: nat, window: int) returns (a: Accumulator<V>)
    requires AllValid(tiles) && InsideFrame(tiles, w, h)
    ensures fresh(a.acc) && fresh(a.weights) && a.Valid() && a.pixels == w * h
    ensures Accumulated(ops, a, w, h, tiles, window)
  {
    a := new Accumulator(w * h, ops.zero);
    NothingYet(ops, a, w, h, tiles, window);
    var k := 0;
    while k < |tiles|
      modifies a.acc, a.weights
      invariant 0 <= k <= |tiles|
      invariant Accumulated(ops, a, w, h, tiles[..k], window)
    {
      hide Accumulated, Progressed;
      ghost var base := Blends(ops, tiles[..k], window);
      BeforeTile(ops, a, w, h, tiles, k, window, base);
      ScatterTile(ops, a, w, h, tiles[k], window, base);
      AfterTile(ops, a, w, h, tiles, k, window, base);
      k := k + 1;
    }
    assert tiles[..k] == tiles;
  }
}

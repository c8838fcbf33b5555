/** The tiled frame path of native/linux-host/tiled-composer.cpp. */
module TiledComposer {
  import opened Arith
  import opened Frames
  import opened FramePlan
  import opened BoxDownscale
  import opened TileNetwork
  import opened Wrappers

  const TILE := 642
  const PAD := 33

  // ---- row copies ---------------------------------------------------------------------------

  /** memcpy of `n` pixels between buffers. */
  function CopyPixels(dst: seq<Rgba8>, to: int, src: seq<Rgba8>, start: int, n: nat): (r: seq<Rgba8>)
    requires 0 <= to && to + n <= |dst| && 0 <= start && start + n <= |src|
    ensures |r| == |dst|
    ensures forall k :: 0 <= k < |r| ==> r[k] == if to <= k < to + n then src[start + k - to] else dst[k]
  {
    dst[..to] + src[start..start + n] + dst[to + n..]
  }

  /** A w x h rectangle at (x, y) of rows of `stride` pixels. */
  datatype Slot = Slot(x: int, y: int, stride: nat)

  ghost predicate Fits(buf: seq<Rgba8>, s: Slot, w: nat, h: nat) {
    && 0 <= s.x && 0 <= s.y && s.x + w <= s.stride
    && (s.y + h) * s.stride <= |buf|
  }

  function Get(buf: seq<Rgba8>, stride: nat, x: int, y: int): Rgba8 {
    var k := Pos(stride, x, y);
    if 0 <= k < |buf| then buf[k] else OPAQUE_BLACK
  }

  /** `r` is `dst` with `rows` rows of `w` pixels at slot `at` replaced from slot `start` of `src`. */
  ghost predicate Copied(r: seq<Rgba8>, dst: seq<Rgba8>, at: Slot, src: seq<Rgba8>, start: Slot, w: nat, rows: nat) {
    && |r| == |dst|
    && forall x, y :: 0 <= x < at.stride ==>
         Get(r, at.stride, x, y) ==
         if at.x <= x < at.x + w && at.y <= y < at.y + rows
         then Get(src, start.stride, x - at.x + start.x, y - at.y + start.y)
         else Get(dst, at.stride, x, y)
  }

  /** The row-by-row copy every tile goes through twice: halo crop in, core out. */
  method CopyRect(dst: seq<Rgba8>, at: Slot, src: seq<Rgba8>, start: Slot, w: nat, h: nat) returns (r: seq<Rgba8>)
    requires Fits(dst, at, w, h) && Fits(src, start, w, h)
    ensures Copied(r, dst, at, src, start, w, h)
  {
    r := dst;
    var y := 0;
    while y < h
      invariant 0 <= y <= h
      invariant Copied(r, dst, at, src, start, w, y)
    {
      hide Copied;
      RowFits(dst, at, w, h, y);
      RowFits(src, start, w, h, y);
      CopiedLength(r, dst, at, src, start, w, y);
      var before := r;
      r := CopyPixels(r, Pos(at.stride, at.x, at.y + y), src, Pos(start.stride, start.x, start.y + y), w);
      CopiedRow(before, r, dst, at, src, start, w, h, y);
      y := y + 1;
    }
  }

  lemma CopiedLength(r: seq<Rgba8>, dst: seq<Rgba8>, at: Slot, src: seq<Rgba8>, start: Slot, w: nat, rows: nat)
    requires Copied(r, dst, at, src, start, w, rows)
    ensures |r| == |dst|
  {
  }

  lemma RowFits(buf: seq<Rgba8>, s: Slot, w: nat, h: nat, y: int)
    requires Fits(buf, s, w, h) && 0 <= y < h
    ensures 0 <= Pos(s.stride, s.x, s.y + y) && Pos(s.stride, s.x, s.y + y) + w <= |buf|
  {
    MulStrict(s.y + y, s.y + h, s.stride);
    MulMono(0, s.y + y, s.stride);
    MulMono(s.y + y + 1, s.y + h, s.stride);
  }

  lemma CopiedRow(r: seq<Rgba8>, r': seq<Rgba8>, dst: seq<Rgba8>, at: Slot, src: seq<Rgba8>, start: Slot,
                  w: nat, h: nat, y: int)
    requires Fits(dst, at, w, h) && Fits(src, start, w, h) && 0 <= y < h
    requires Copied(r, dst, at, src, start, w, y)
    requires 0 <= Pos(at.stride, at.x, at.y + y) && Pos(at.stride, at.x, at.y + y) + w <= |r|
    requires 0 <= Pos(start.stride, start.x, start.y + y) && Pos(start.stride, start.x, start.y + y) + w <= |src|
    requires r' == CopyPixels(r, Pos(at.stride, at.x, at.y + y), src, Pos(start.stride, start.x, start.y + y), w)
    ensures Copied(r', dst, at, src, start, w, y + 1)
  {
    forall i, j | 0 <= i < at.stride
      ensures Get(r', at.stride, i, j) ==
              if at.x <= i < at.x + w && at.y <= j < at.y + y + 1
              then Get(src, start.stride, i - at.x + start.x, j - at.y + start.y)
              else Get(dst, at.stride, i, j)
    {
      CopiedPixel(r, r', at, src, start, w, y, i, j);
      assert Get(r, at.stride, i, j) ==
             if at.x <= i < at.x + w && at.y <= j < at.y + y
             then Get(src, start.stride, i - at.x + start.x, j - at.y + start.y)
             else Get(dst, at.stride, i, j);
    }
  }

  lemma CopiedPixel(r: seq<Rgba8>, r': seq<Rgba8>, at: Slot, src: seq<Rgba8>, start: Slot, w: nat, y: int,
                    i: int, j: int)
    requires 0 <= at.x && at.x + w <= at.stride && 0 <= i < at.stride
    requires 0 <= Pos(at.stride, at.x, at.y + y) && Pos(at.stride, at.x, at.y + y) + w <= |r|
    requires 0 <= Pos(start.stride, start.x, start.y + y) && Pos(start.stride, start.x, start.y + y) + w <= |src|
    requires r' == CopyPixels(r, Pos(at.stride, at.x, at.y + y), src, Pos(start.stride, start.x, start.y + y), w)
    ensures Get(r', at.stride, i, j) ==
            if at.x <= i < at.x + w && j == at.y + y
            then Get(src, start.stride, i - at.x + start.x, j - at.y + start.y)
            else Get(r, at.stride, i, j)
  {
    var to := Pos(at.stride, at.x, at.y + y);
    var k := Pos(at.stride, i, j);
    if to <= k < to + w {
      PosInjective(at.stride, i, j, at.x + (k - to), at.y + y);
    }
  }

  // ---- stitching ----------------------------------------------------------------------------

  /** Rows before y0 show the picture; rows y0..y1 show it left of x0. */
  ghost predicate Stitched(buf: seq<Rgba8>, w: nat, pic: Picture, x0: int, y0: int, y1: int) {
    forall x, y :: 0 <= x < w && 0 <= y < y1 && (y < y0 || x < x0) ==> Get(buf, w, x, y) == pic(x, y)
  }

  /** The copied rectangle carries the picture's own pixels. */
  ghost predicate Carries(src: seq<Rgba8>, start: Slot, at: Slot, w: nat, h: nat, pic: Picture) {
    forall x, y :: at.x <= x < at.x + w && at.y <= y < at.y + h ==>
      Get(src, start.stride, x - at.x + start.x, y - at.y + start.y) == pic(x, y)
  }

  /** `r` is `buf` with one rectangle replaced by the picture there. */
  ghost predicate Patched(r: seq<Rgba8>, buf: seq<Rgba8>, at: Slot, w: nat, h: nat, pic: Picture) {
    && |r| == |buf|
    && forall x, y :: 0 <= x < at.stride ==>
         Get(r, at.stride, x, y) ==
         if at.x <= x < at.x + w && at.y <= y < at.y + h then pic(x, y) else Get(buf, at.stride, x, y)
  }

  lemma PatchStep(r: seq<Rgba8>, buf: seq<Rgba8>, at: Slot, src: seq<Rgba8>, start: Slot, w: nat, h: nat, pic: Picture)
    requires Copied(r, buf, at, src, start, w, h) && Carries(src, start, at, w, h, pic)
    ensures Patched(r, buf, at, w, h, pic)
  {
  }

  lemma StitchStep(r: seq<Rgba8>, buf: seq<Rgba8>, at: Slot, src: seq<Rgba8>, start: Slot, w: nat, h: nat, pic: Picture)
    requires Copied(r, buf, at, src, start, w, h)
    requires Stitched(buf, at.stride, pic, at.x, at.y, at.y + h)
    requires Carries(src, start, at, w, h, pic)
    ensures |r| == |buf| && Stitched(r, at.stride, pic, at.x + w, at.y, at.y + h)
  {
  }

  lemma StitchedShows(buf: seq<Rgba8>, w: nat, h: nat, pic: Picture)
    requires |buf| == w * h && Stitched(buf, w, pic, 0, h, h)
    ensures Shows(buf, w, h, pic)
  {
    forall x, y | 0 <= x < w && 0 <= y < h
      ensures 0 <= Pos(w, x, y) < |buf| && buf[Pos(w, x, y)] == pic(x, y)
    {
      PosInRange(w, h, x, y);
      assert Get(buf, w, x, y) == pic(x, y);
    }
  }

  lemma ShownPixel(buf: seq<Rgba8>, w: nat, h: nat, pic: Picture, x: int, y: int)
    requires Shows(buf, w, h, pic) && 0 <= x < w && 0 <= y < h
    ensures Get(buf, w, x, y) == pic(x, y)
  {
    PosInRange(w, h, x, y);
  }

  lemma RenderedPeek(w: nat, h: nat, pic: Picture, x: int, y: int)
    requires 0 <= x < w && 0 <= y < h
    ensures Rendered(w, h, pic).Peek(x, y) == Some(pic(x, y))
  {
  }

  // ---- one tile -----------------------------------------------------------------------------

  /** The halo reaches far enough around every core coordinate. */
  lemma HaloCovers(start: int, size: int, c: int, r: nat)
    requires 0 <= start < size && r <= PAD
    requires var t := TileExtent(start, size, TILE, PAD); t.c0 <= c < t.c1
    ensures var t := TileExtent(start, size, TILE, PAD); Covers(t.e0, t.e1, size, c, r)
  {
  }

  ghost predicate TileOf(tile: Image, frame: Image, tx: Extent, ty: Extent) {
    && IsCrop(tile, frame, tx.e0, ty.e0)
    && tile.w == tx.e1 - tx.e0 && tile.h == ty.e1 - ty.e0
  }

  /** A core pixel of the 4x tile output is the frame's own 4x output. */
  lemma CorePixel(net: Network, tile: Image, frame: Image, sx: int, sy: int, x: int, y: int)
    requires net.radius <= PAD && frame.Valid() && 0 <= sx < frame.w && 0 <= sy < frame.h
    requires TileOf(tile, frame, TileExtent(sx, frame.w, TILE, PAD), TileExtent(sy, frame.h, TILE, PAD))
    requires var tx := TileExtent(sx, frame.w, TILE, PAD); tx.c0 * SCALE <= x < tx.c1 * SCALE
    requires var ty := TileExtent(sy, frame.h, TILE, PAD); ty.c0 * SCALE <= y < ty.c1 * SCALE
    ensures var tx, ty := TileExtent(sx, frame.w, TILE, PAD), TileExtent(sy, frame.h, TILE, PAD);
      && 0 <= x - tx.e0 * SCALE < tile.w * SCALE && 0 <= y - ty.e0 * SCALE < tile.h * SCALE
      && NetPicture(net, tile)(x - tx.e0 * SCALE, y - ty.e0 * SCALE) == NetPicture(net, frame)(x, y)
  {
    var tx, ty := TileExtent(sx, frame.w, TILE, PAD), TileExtent(sy, frame.h, TILE, PAD);
    HaloCovers(sx, frame.w, x / SCALE, net.radius);
    HaloCovers(sy, frame.h, y / SCALE, net.radius);
    hide NetPicture;
    SameOutput(net, tile, frame, tx.e0, ty.e0, x, y);
  }

  /** The full-size stitch copies the frame's own pixels. */
  lemma FullCoreCarries(net: Network, tile: Image, frame: Image, sx: int, sy: int, buf: seq<Rgba8>)
    requires net.radius <= PAD && frame.Valid() && 0 <= sx < frame.w && 0 <= sy < frame.h
    requires TileOf(tile, frame, TileExtent(sx, frame.w, TILE, PAD), TileExtent(sy, frame.h, TILE, PAD))
    requires Shows(buf, tile.w * SCALE, tile.h * SCALE, NetPicture(net, tile))
    ensures var tx, ty := TileExtent(sx, frame.w, TILE, PAD), TileExtent(sy, frame.h, TILE, PAD);
      Carries(buf, Slot((tx.c0 - tx.e0) * SCALE, (ty.c0 - ty.e0) * SCALE, tile.w * SCALE),
              Slot(tx.c0 * SCALE, ty.c0 * SCALE, frame.w * SCALE),
              (tx.c1 - tx.c0) * SCALE, (ty.c1 - ty.c0) * SCALE, NetPicture(net, frame))
  {
    var tx, ty := TileExtent(sx, frame.w, TILE, PAD), TileExtent(sy, frame.h, TILE, PAD);
    hide NetPicture, Shows, Get;
    forall x, y | tx.c0 * SCALE <= x < tx.c1 * SCALE && ty.c0 * SCALE <= y < ty.c1 * SCALE
      ensures Get(buf, tile.w * SCALE, x - tx.e0 * SCALE, y - ty.e0 * SCALE) == NetPicture(net, frame)(x, y)
    {
      CorePixel(net, tile, frame, sx, sy, x, y);
      ShownPixel(buf, tile.w * SCALE, tile.h * SCALE, NetPicture(net, tile), x - tx.e0 * SCALE, y - ty.e0 * SCALE);
    }
  }

  /** Along one axis the cores hand every coordinate to exactly one tile, so together every
      output pixel is written once. */
  lemma CoreOwner(size: int, c: int)
    requires 0 <= c < size
    ensures var t := TileExtent((c / TILE) * TILE, size, TILE, PAD); t.c0 <= c < t.c1
    ensures forall k: nat :: (var t := TileExtent(k * TILE, size, TILE, PAD); t.c0 <= c < t.c1) ==> k == c / TILE
  {
  }

  /** The halo is exactly as wide as it must be: one pixel more of receptive radius and some
      network tells a tile edge from a frame edge. */
  lemma HaloIsTight(tile: Image, frame: Image, sy: int, r: nat)
    requires PAD < r && frame.Valid() && TILE < frame.w && 0 <= sy < frame.h
    requires TileOf(tile, frame, TileExtent(TILE, frame.w, TILE, PAD), TileExtent(sy, frame.h, TILE, PAD))
    ensures var tx, ty := TileExtent(TILE, frame.w, TILE, PAD), TileExtent(sy, frame.h, TILE, PAD);
      exists net: Network :: net.radius == r
        && NetPicture(net, tile)((TILE - tx.e0) * SCALE, (sy - ty.e0) * SCALE)
           != NetPicture(net, frame)(TILE * SCALE, sy * SCALE)
  {
    var tx, ty := TileExtent(TILE, frame.w, TILE, PAD), TileExtent(sy, frame.h, TILE, PAD);
    var probe := (p: Patch, u: int, v: int) =>
      if |p| == 2 * r + 1 && |p[r]| == 2 * r + 1 && p[r][r - PAD - 1].None? then OPAQUE_BLACK else Rgba8(255, 255, 255, 255);
    var net := Network(r, probe);
    var a, b := PatchAt(tile, TILE - tx.e0, sy - ty.e0, r), PatchAt(frame, TILE, sy, r);
    assert a[r][r - PAD - 1] == tile.Peek(-1, sy - ty.e0);
    assert b[r][r - PAD - 1] == frame.Peek(TILE - PAD - 1, sy);
    assert NetPicture(net, tile)((TILE - tx.e0) * SCALE, (sy - ty.e0) * SCALE) == OPAQUE_BLACK;
    assert NetPicture(net, frame)(TILE * SCALE, sy * SCALE) == Rgba8(255, 255, 255, 255);
  }

  // ---- the downscaled tile ------------------------------------------------------------------

  /** A tile's place on one axis of the shrunken grid: target slot, core offset, core and tile size. */
  datatype Grid = Grid(slot: int, offset: int, core: int, full: int)

  function GridOf(t: Extent, f: int): Grid
    requires 0 < f
  {
    Grid((t.c0 * SCALE) / f, ((t.c0 - t.e0) * SCALE) / f, ((t.c1 - t.c0) * SCALE) / f, ((t.e1 - t.e0) * SCALE) / f)
  }

  lemma ExactQuotient(a: int, f: int)
    requires 0 < f && a % f == 0
    ensures (a / f) * f == a
  {
  }

  lemma MultipleSum(a: int, b: int, f: int)
    requires 0 < f && a % f == 0 && b % f == 0
    ensures (a + b) % f == 0
  {
    ExactQuotient(a, f);
    ExactQuotient(b, f);
    assert a + b == (a / f + b / f) * f + 0;
    DivModUnique(a + b, f, a / f + b / f, 0);
  }

  /** Aligned tiles lose nothing to the divisions. */
  lemma GridExact(t: Extent, f: int)
    requires 0 < f && ExtentAligned(t, SCALE, f)
    ensures var g := GridOf(t, f);
      && g.slot * f == t.c0 * SCALE
      && g.offset * f == (t.c0 - t.e0) * SCALE
      && g.core * f == (t.c1 - t.c0) * SCALE
      && g.full * f == (t.e1 - t.e0) * SCALE
  {
    MultipleSum(t.e0 * SCALE, (t.c0 - t.e0) * SCALE, f);
    ExactQuotient(t.c0 * SCALE, f);
    ExactQuotient((t.c0 - t.e0) * SCALE, f);
    ExactQuotient((t.c1 - t.c0) * SCALE, f);
    ExactQuotient((t.e1 - t.e0) * SCALE, f);
  }

  /** One axis of the block of output cell v: inside the core, at matching places. */
  lemma BlockInCore(t: Extent, f: int, v: int, i: int)
    requires 0 < f && 0 <= i < f && t.e0 <= t.c0 <= t.c1 && ExtentAligned(t, SCALE, f)
    requires var g := GridOf(t, f); g.slot <= v < g.slot + g.core
    ensures var g := GridOf(t, f);
      && t.c0 * SCALE <= v * f + i < t.c1 * SCALE
      && (v - g.slot + g.offset) * f + i == v * f + i - t.e0 * SCALE
      && 0 <= v - g.slot + g.offset
  {
    var g := GridOf(t, f);
    GridExact(t, f);
    MulMono(g.slot, v, f);
    MulStrict(v, g.slot + g.core, f);
    assert (g.slot + g.core) * f == g.slot * f + g.core * f;
    assert (v - g.slot + g.offset) * f == v * f - g.slot * f + g.offset * f;
    MulMonoIf(g.offset, -1, f);
  }

  /** f composed pixels per target pixel. */
  predicate Scales(size: int, f: int, d: int) { size * SCALE == f * d }

  /** The same cell lies inside the shrunken tile and inside the target. */
  lemma CellInTile(t: Extent, f: int, v: int, size: int, d: nat)
    requires Scales(size, f, d) && 0 < f && 0 <= t.e0 <= t.c0 <= t.c1 <= t.e1 <= size && ExtentAligned(t, SCALE, f)
    requires var g := GridOf(t, f); g.slot <= v < g.slot + g.core
    ensures var g := GridOf(t, f);
      && 0 <= v - g.slot + g.offset < g.full
      && 0 <= v < d
  {
    var g := GridOf(t, f);
    GridExact(t, f);
    BlockInCore(t, f, v, 0);
    var u := v - g.slot + g.offset;
    MulMonoIf(g.full, u, f);
    MulMonoIf(v, -1, f);
    MulMonoIf(d, v, f);
  }

  /** The two composed frames, read at corresponding core places. */
  lemma CorePeek(net: Network, tile: Image, frame: Image, sx: int, sy: int, x: int, y: int)
    requires net.radius <= PAD && frame.Valid() && 0 <= sx < frame.w && 0 <= sy < frame.h
    requires TileOf(tile, frame, TileExtent(sx, frame.w, TILE, PAD), TileExtent(sy, frame.h, TILE, PAD))
    requires var tx := TileExtent(sx, frame.w, TILE, PAD); tx.c0 * SCALE <= x < tx.c1 * SCALE
    requires var ty := TileExtent(sy, frame.h, TILE, PAD); ty.c0 * SCALE <= y < ty.c1 * SCALE
    ensures var tx, ty := TileExtent(sx, frame.w, TILE, PAD), TileExtent(sy, frame.h, TILE, PAD);
      FullFrame(net, tile).Peek(x - tx.e0 * SCALE, y - ty.e0 * SCALE) == FullFrame(net, frame).Peek(x, y)
  {
    var tx, ty := TileExtent(sx, frame.w, TILE, PAD), TileExtent(sy, frame.h, TILE, PAD);
    hide NetPicture, Rendered;
    CorePixel(net, tile, frame, sx, sy, x, y);
    RenderedPeek(tile.w * SCALE, tile.h * SCALE, NetPicture(net, tile), x - tx.e0 * SCALE, y - ty.e0 * SCALE);
    RenderedPeek(frame.w * SCALE, frame.h * SCALE, NetPicture(net, frame), x, y);
  }

  lemma ExtentOrder(start: int, size: int)
    requires 0 <= start < size
    ensures var t := TileExtent(start, size, TILE, PAD); 0 <= t.e0 <= t.c0 < t.c1 <= t.e1 <= size
  {
  }

  /** Pixel (i, j) of the f x f block behind target cell (x, y), seen in both frames. */
  lemma BlockPixel(net: Network, tile: Image, frame: Image, sx: int, sy: int, f: nat, x: int, y: int, i: int, j: int)
    requires net.radius <= PAD && frame.Valid() && 0 <= sx < frame.w && 0 <= sy < frame.h
    requires 0 <= i < f && 0 <= j < f
    requires var tx, ty := TileExtent(sx, frame.w, TILE, PAD), TileExtent(sy, frame.h, TILE, PAD);
      && TileOf(tile, frame, tx, ty) && ExtentAligned(tx, SCALE, f) && ExtentAligned(ty, SCALE, f)
      && var gx, gy := GridOf(tx, f), GridOf(ty, f);
      && gx.slot <= x < gx.slot + gx.core && gy.slot <= y < gy.slot + gy.core
    ensures var tx, ty := TileExtent(sx, frame.w, TILE, PAD), TileExtent(sy, frame.h, TILE, PAD);
      var gx, gy := GridOf(tx, f), GridOf(ty, f);
      PeekFrom(FullFrame(net, tile), (x - gx.slot + gx.offset) * f, (y - gy.slot + gy.offset) * f, i, j)
      == PeekFrom(FullFrame(net, frame), x * f, y * f, i, j)
  {
    hide NetPicture, Rendered, GridOf, ExtentAligned, TileExtent, FullFrame, IsCrop;
    var tx, ty := TileExtent(sx, frame.w, TILE, PAD), TileExtent(sy, frame.h, TILE, PAD);
    ExtentOrder(sx, frame.w);
    ExtentOrder(sy, frame.h);
    BlockInCore(tx, f, x, i);
    BlockInCore(ty, f, y, j);
    var px, py := x * f + i, y * f + j;
    CorePeek(net, tile, frame, sx, sy, px, py);
  }

  /** The block of a core pixel is the same in the tile's network output and the frame's. */
  lemma SameCoreBlock(net: Network, tile: Image, frame: Image, sx: int, sy: int, f: nat, x: int, y: int)
    requires net.radius <= PAD && frame.Valid() && 0 <= sx < frame.w && 0 <= sy < frame.h && 0 < f
    requires var tx, ty := TileExtent(sx, frame.w, TILE, PAD), TileExtent(sy, frame.h, TILE, PAD);
      && TileOf(tile, frame, tx, ty) && ExtentAligned(tx, SCALE, f) && ExtentAligned(ty, SCALE, f)
      && var gx, gy := GridOf(tx, f), GridOf(ty, f);
      && gx.slot <= x < gx.slot + gx.core && gy.slot <= y < gy.slot + gy.core
    ensures var gx, gy := GridOf(TileExtent(sx, frame.w, TILE, PAD), f), GridOf(TileExtent(sy, frame.h, TILE, PAD), f);
      SameBlock(FullFrame(net, tile), (x - gx.slot + gx.offset) * f, (y - gy.slot + gy.offset) * f,
                FullFrame(net, frame), x * f, y * f, f)
  {
    hide NetPicture, Rendered, PeekFrom, FullFrame, GridOf, ExtentAligned, TileExtent;
    var gx, gy := GridOf(TileExtent(sx, frame.w, TILE, PAD), f), GridOf(TileExtent(sy, frame.h, TILE, PAD), f);
    var u, v := x - gx.slot + gx.offset, y - gy.slot + gy.offset;
    var a, b := FullFrame(net, tile), FullFrame(net, frame);
    forall i, j | 0 <= i < f && 0 <= j < f
      ensures PeekFrom(a, u * f, v * f, i, j) == PeekFrom(b, x * f, y * f, i, j)
    {
      BlockPixel(net, tile, frame, sx, sy, f, x, y, i, j);
    }
  }

  /** The core cell lies inside the shrunken tile and the target, and both are whole grids of blocks. */
  lemma CellsInGrid(tile: Image, frame: Image, sx: int, sy: int, f: nat, dw: nat, dh: nat, x: int, y: int)
    requires frame.Valid() && 0 <= sx < frame.w && 0 <= sy < frame.h
    requires 0 < f && Scales(frame.w, f, dw) && Scales(frame.h, f, dh)
    requires var tx, ty := TileExtent(sx, frame.w, TILE, PAD), TileExtent(sy, frame.h, TILE, PAD);
      && TileOf(tile, frame, tx, ty) && ExtentAligned(tx, SCALE, f) && ExtentAligned(ty, SCALE, f)
      && var gx, gy := GridOf(tx, f), GridOf(ty, f);
      && gx.slot <= x < gx.slot + gx.core && gy.slot <= y < gy.slot + gy.core
    ensures var gx, gy := GridOf(TileExtent(sx, frame.w, TILE, PAD), f), GridOf(TileExtent(sy, frame.h, TILE, PAD), f);
      && 0 <= x - gx.slot + gx.offset < gx.full && 0 <= y - gy.slot + gy.offset < gy.full
      && 0 <= x < dw && 0 <= y < dh && Scales(tile.w, f, gx.full) && Scales(tile.h, f, gy.full)
  {
    var tx, ty := TileExtent(sx, frame.w, TILE, PAD), TileExtent(sy, frame.h, TILE, PAD);
    hide GridOf, ExtentAligned, TileExtent, Scales;
    ExtentOrder(sx, frame.w);
    ExtentOrder(sy, frame.h);
    CellInTile(tx, f, x, frame.w, dw);
    CellInTile(ty, f, y, frame.h, dh);
    GridFills(tx, f, tile.w);
    GridFills(ty, f, tile.h);
  }

  lemma GridFills(t: Extent, f: int, w: int)
    requires 0 < f && ExtentAligned(t, SCALE, f) && w == t.e1 - t.e0
    ensures Scales(w, f, GridOf(t, f).full)
  {
    GridExact(t, f);
  }

  lemma FullFrameScales(net: Network, img: Image, f: int, dw: int, dh: int)
    requires img.Valid() && Scales(img.w, f, dw) && Scales(img.h, f, dh)
    ensures var a := FullFrame(net, img); a.Valid() && a.w == f * dw && a.h == f * dh
  {
  }

  /** A core pixel of the box-downscaled tile is the box average of the whole composed frame. */
  lemma DownscaledCorePixel(net: Network, tile: Image, frame: Image, sx: int, sy: int, f: nat,
                            dw: nat, dh: nat, x: int, y: int)
    requires net.radius <= PAD && frame.Valid() && 0 <= sx < frame.w && 0 <= sy < frame.h
    requires 0 < f && Scales(frame.w, f, dw) && Scales(frame.h, f, dh)
    requires var tx, ty := TileExtent(sx, frame.w, TILE, PAD), TileExtent(sy, frame.h, TILE, PAD);
      && TileOf(tile, frame, tx, ty) && ExtentAligned(tx, SCALE, f) && ExtentAligned(ty, SCALE, f)
      && var gx, gy := GridOf(tx, f), GridOf(ty, f);
      && gx.slot <= x < gx.slot + gx.core && gy.slot <= y < gy.slot + gy.core
    ensures var tx, ty := TileExtent(sx, frame.w, TILE, PAD), TileExtent(sy, frame.h, TILE, PAD);
      var gx, gy := GridOf(tx, f), GridOf(ty, f);
      && 0 <= x - gx.slot + gx.offset < gx.full && 0 <= y - gy.slot + gy.offset < gy.full
      && 0 <= x < dw && 0 <= y < dh
      && BoxPixel(FullFrame(net, tile), gx.full, gy.full, x - gx.slot + gx.offset, y - gy.slot + gy.offset)
         == BoxPixel(FullFrame(net, frame), dw, dh, x, y)
  {
    hide BoxPixel, FullFrame, GridOf, ExtentAligned, TileExtent, SameBlock, Scales;
    assert tile.Valid();
    hide TileOf;
    var gx, gy := GridOf(TileExtent(sx, frame.w, TILE, PAD), f), GridOf(TileExtent(sy, frame.h, TILE, PAD), f);
    CellsInGrid(tile, frame, sx, sy, f, dw, dh, x, y);
    SameCoreBlock(net, tile, frame, sx, sy, f, x, y);
    FullFrameScales(net, tile, f, gx.full, gy.full);
    FullFrameScales(net, frame, f, dw, dh);
    SameBoxPixel(FullFrame(net, tile), gx.full, gy.full, x - gx.slot + gx.offset, y - gy.slot + gy.offset,
                 FullFrame(net, frame), dw, dh, x, y, f);
  }

  lemma SmallCorePixel(net: Network, tile: Image, frame: Image, sx: int, sy: int, f: nat, dw: nat, dh: nat,
                       buf: seq<Rgba8>, x: int, y: int)
    requires net.radius <= PAD && frame.Valid() && 0 <= sx < frame.w && 0 <= sy < frame.h
    requires 0 < f && 0 < dw && 0 < dh && Scales(frame.w, f, dw) && Scales(frame.h, f, dh)
    requires tile.Valid()
    requires var tx, ty := TileExtent(sx, frame.w, TILE, PAD), TileExtent(sy, frame.h, TILE, PAD);
      && TileOf(tile, frame, tx, ty) && ExtentAligned(tx, SCALE, f) && ExtentAligned(ty, SCALE, f)
      && var gx, gy := GridOf(tx, f), GridOf(ty, f);
      && 0 < gx.full && 0 < gy.full
      && gx.slot <= x < gx.slot + gx.core && gy.slot <= y < gy.slot + gy.core
      && Shows(buf, gx.full, gy.full, BoxPicture(FullFrame(net, tile), gx.full, gy.full))
    ensures var tx, ty := TileExtent(sx, frame.w, TILE, PAD), TileExtent(sy, frame.h, TILE, PAD);
      var gx, gy := GridOf(tx, f), GridOf(ty, f);
      Get(buf, gx.full, x - gx.slot + gx.offset, y - gy.slot + gy.offset)
      == BoxPicture(FullFrame(net, frame), dw, dh)(x, y)
  {
    hide BoxPixel, Shows, Get, GridOf, FullFrame, ExtentAligned, TileExtent, IsCrop, TileOf, Rendered, NetPicture, Scales;
    var tx, ty := TileExtent(sx, frame.w, TILE, PAD), TileExtent(sy, frame.h, TILE, PAD);
    var gx, gy := GridOf(tx, f), GridOf(ty, f);
    DownscaledCorePixel(net, tile, frame, sx, sy, f, dw, dh, x, y);
    ShownPixel(buf, gx.full, gy.full, BoxPicture(FullFrame(net, tile), gx.full, gy.full),
               x - gx.slot + gx.offset, y - gy.slot + gy.offset);
  }

  /** The stitch of a downscaled tile copies the frame's own box averages. */
  lemma SmallCoreCarries(net: Network, tile: Image, frame: Image, sx: int, sy: int, f: nat, dw: nat, dh: nat, buf: seq<Rgba8>)
    requires net.radius <= PAD && frame.Valid() && 0 <= sx < frame.w && 0 <= sy < frame.h
    requires 0 < f && 0 < dw && 0 < dh && Scales(frame.w, f, dw) && Scales(frame.h, f, dh)
    requires var tx, ty := TileExtent(sx, frame.w, TILE, PAD), TileExtent(sy, frame.h, TILE, PAD);
      && TileOf(tile, frame, tx, ty) && ExtentAligned(tx, SCALE, f) && ExtentAligned(ty, SCALE, f)
      && var gx, gy := GridOf(tx, f), GridOf(ty, f);
      && 0 < gx.full && 0 < gy.full && 0 <= gx.core && 0 <= gy.core
      && Shows(buf, gx.full, gy.full, BoxPicture(FullFrame(net, tile), gx.full, gy.full))
    ensures var tx, ty := TileExtent(sx, frame.w, TILE, PAD), TileExtent(sy, frame.h, TILE, PAD);
      var gx, gy := GridOf(tx, f), GridOf(ty, f);
      Carries(buf, Slot(gx.offset, gy.offset, gx.full), Slot(gx.slot, gy.slot, dw), gx.core, gy.core,
              BoxPicture(FullFrame(net, frame), dw, dh))
  {
    hide BoxPixel, BoxPicture, Shows, Get, GridOf, FullFrame, ExtentAligned, TileExtent, Scales;
    assert tile.Valid();
    hide TileOf;
    var gx, gy := GridOf(TileExtent(sx, frame.w, TILE, PAD), f), GridOf(TileExtent(sy, frame.h, TILE, PAD), f);
    forall x, y | gx.slot <= x < gx.slot + gx.core && gy.slot <= y < gy.slot + gy.core
      ensures Get(buf, gx.full, x - gx.slot + gx.offset, y - gy.slot + gy.offset)
              == BoxPicture(FullFrame(net, frame), dw, dh)(x, y)
    {
      SmallCorePixel(net, tile, frame, sx, sy, f, dw, dh, buf, x, y);
    }
  }

  // ---- the threaded CPU box pass --------------------------------------------------------------

  function WantThreads(hw: nat): (n: nat)
    ensures 1 <= n <= 8
  {
    FramePlan.Max(1, FramePlan.Min(if hw == 0 then 1 else hw, 8))
  }

  function RowsPerThread(rows: nat, hw: nat): nat { (rows + WantThreads(hw) - 1) / WantThreads(hw) }

  /** Worker t's output rows. */
  predicate WorksOn(t: int, y: int, rows: nat, hw: nat) {
    t * RowsPerThread(rows, hw) <= y < FramePlan.Min(rows, t * RowsPerThread(rows, hw) + RowsPerThread(rows, hw))
  }

  lemma CeilCovers(rows: nat, n: nat)
    requires 0 < rows && 0 < n
    ensures var per := (rows + n - 1) / n; 0 < per && rows <= per * n
  {
    QuotientRemainder(rows + n - 1, n);
  }

  lemma ChunkOf(per: nat, n: nat, rows: nat, y: nat)
    requires 0 < per && rows <= per * n && y < rows
    ensures 0 <= y / per < n && y / per * per <= y < y / per * per + per
  {
    DivInRange(y, per, n);
    QuotientRemainder(y, per);
  }

  lemma OneChunk(per: nat, t: int, y: nat)
    requires 0 < per && t * per <= y < t * per + per
    ensures t == y / per
  {
    DivModUnique(y, per, t, y - t * per);
  }

  lemma QuotientRemainder(k: nat, n: nat)
    requires 0 < n
    ensures k == k / n * n + k % n && 0 <= k % n < n && 0 <= k / n
  {
  }

  /** The split gives every output row to exactly one worker. */
  lemma RowSplit(rows: nat, hw: nat, y: int)
    requires 0 <= y < rows
    ensures var per := RowsPerThread(rows, hw);
      && 0 < per && 0 <= y / per < WantThreads(hw) && WorksOn(y / per, y, rows, hw)
      && forall t :: WorksOn(t, y, rows, hw) ==> t == y / per
  {
    var n, per := WantThreads(hw), RowsPerThread(rows, hw);
    CeilCovers(rows, n);
    hide WantThreads, RowsPerThread;
    ChunkOf(per, n, rows, y);
    forall t | WorksOn(t, y, rows, hw) ensures t == y / per {
      OneChunk(per, t, y);
    }
  }

  /** `schedule` lists computed rows in the order they are finished: every row of the first `spawned`
      workers occurs; further rows of the output, and repetitions, do no harm. */
  ghost predicate Interleaving(schedule: seq<nat>, rows: nat, hw: nat, spawned: nat) {
    && (forall k :: 0 <= k < |schedule| ==> schedule[k] < rows)
    && (forall t, y :: 0 <= t < spawned && t < WantThreads(hw) && WorksOn(t, y, rows, hw) ==> y in schedule)
  }

  /** The row fan-out over worker threads. `spawned` is how many threads could be created;
      a failure to create one falls back to recomputing every row here. */
  method FanOut(src: Image, dst: array<Rgba8>, dw: nat, dh: nat, hw: nat, spawned: nat, schedule: seq<nat>)
    requires src.Valid() && 0 < dw && 0 < dh && dst.Length == dw * dh
    requires Interleaving(schedule, dh, hw, spawned)
    modifies dst
    ensures Shows(dst[..], dw, dh, BoxPicture(src, dw, dh))
  {
    if WantThreads(hw) <= 1 || RowsPerThread(dh, hw) == 0 {
      BoxDownscaleRows(src, dst, dw, dh, 0, dh);
      return;
    }
    var k := 0;
    while k < |schedule|
      invariant 0 <= k <= |schedule|
      invariant forall x, y :: 0 <= x < dw && y in schedule[..k] ==>
                  0 <= Pos(dw, x, y) < dst.Length && dst[Pos(dw, x, y)] == BoxPixel(src, dw, dh, x, y)
    {
      hide BoxPixel;
      BoxDownscaleRows(src, dst, dw, dh, schedule[k], schedule[k] + 1);
      assert schedule[..k + 1] == schedule[..k] + [schedule[k]];
      k := k + 1;
    }
    assert schedule[..k] == schedule;
    hide BoxPixel;
    if spawned < WantThreads(hw) {
      BoxDownscaleRows(src, dst, dw, dh, 0, dh);
    } else {
      forall y | 0 <= y < dh ensures y in schedule {
        RowSplit(dh, hw, y);
      }
    }
  }

  // ---- the composer -------------------------------------------------------------------------

  /** What the caller must receive: the whole-frame 4x output, box-averaged to the target
      when one asks for fewer pixels. Tiles, halos and threads do not appear. */
  function ComposedSize(frame: Image, targetW: int, targetH: int): (s: (nat, nat))
    requires 0 < frame.w && 0 < frame.h
    ensures 0 < s.0 <= frame.w * SCALE && 0 < s.1 <= frame.h * SCALE
  {
    var w, h := frame.w * SCALE, frame.h * SCALE;
    if WantsDownscale(targetW, targetH, w, h) then (FramePlan.Min(targetW, w), FramePlan.Min(targetH, h)) else (w, h)
  }

  function ComposedPicture(net: Network, frame: Image, targetW: int, targetH: int): Picture
    requires frame.Valid() && 0 < frame.w && 0 < frame.h
  {
    var size := ComposedSize(frame, targetW, targetH);
    if WantsDownscale(targetW, targetH, frame.w * SCALE, frame.h * SCALE)
    then BoxPicture(FullFrame(net, frame), size.0, size.1)
    else NetPicture(net, frame)
  }

  /** Every tile's GPU frame succeeds. */
  ghost predicate AllTilesServed(frame: Image, gpuOk: (int, int) -> bool) {
    forall i: nat, j: nat :: i * TILE < frame.w && j * TILE < frame.h ==> gpuOk(i * TILE, j * TILE)
  }

  function Resized(buf: seq<Rgba8>, n: nat): (r: seq<Rgba8>)
    ensures |r| == n
  {
    if n <= |buf| then buf[..n] else buf + seq(n - |buf|, _ => Rgba8(0, 0, 0, 0))
  }

  /** The reused per-frame buffers; their old contents never reach a result. */
  class Composer {
    var tileInput: seq<Rgba8>
    var tileOutput: seq<Rgba8>
    var tileDownscaled: seq<Rgba8>
    var tiledOutput: seq<Rgba8>

    constructor ()
      ensures tileInput == [] && tileOutput == [] && tileDownscaled == [] && tiledOutput == []
    {
      tileInput, tileOutput, tileDownscaled, tiledOutput := [], [], [], [];
    }

    /** Copies a halo-expanded tile into the (possibly larger) input buffer. */
    method LoadTile(frame: Image, tx: Extent, ty: Extent) returns (tile: Image)
      requires frame.Valid()
      requires 0 <= tx.e0 <= tx.e1 <= frame.w && 0 <= ty.e0 <= ty.e1 <= frame.h
      modifies `tileInput
      ensures TileOf(tile, frame, tx, ty)
    {
      var ew, eh := tx.e1 - tx.e0, ty.e1 - ty.e0;
      var need := ew * eh;
      var alloc := AlignedFrameBytes(need * 4) / 4;
      if |tileInput| < alloc { tileInput := Resized(tileInput, alloc); }
      TileFits(frame, tx, ty, tileInput);
      ghost var before := tileInput;
      tileInput := CopyRect(tileInput, Slot(0, 0, ew), frame.px, Slot(tx.e0, ty.e0, frame.w), ew, eh);
      tile := Image(ew, eh, tileInput[..need]);
      LoadedTile(frame, tx, ty, before, tileInput);
    }

    /** One tile of the full-size path. */
    method StitchFullTile(net: Network, frame: Image, tx: int, ty: int, gpuOk: (int, int) -> bool) returns (ok: bool)
      requires frame.Valid() && net.radius <= PAD && 0 <= tx < frame.w && 0 <= ty < frame.h
      requires |tiledOutput| == (frame.w * SCALE) * (frame.h * SCALE)
      requires var ey := TileExtent(ty, frame.h, TILE, PAD);
        Stitched(tiledOutput, frame.w * SCALE, NetPicture(net, frame), tx * SCALE, ey.c0 * SCALE, ey.c1 * SCALE)
      modifies `tileInput, `tileOutput, `tiledOutput
      ensures ok == gpuOk(tx, ty)
      ensures |tiledOutput| == (frame.w * SCALE) * (frame.h * SCALE)
      ensures var ex, ey := TileExtent(tx, frame.w, TILE, PAD), TileExtent(ty, frame.h, TILE, PAD);
        ok ==>
          && Stitched(tiledOutput, frame.w * SCALE, NetPicture(net, frame), ex.c1 * SCALE, ey.c0 * SCALE, ey.c1 * SCALE)
          && Patched(tiledOutput, old(tiledOutput), Slot(ex.c0 * SCALE, ey.c0 * SCALE, frame.w * SCALE),
                     (ex.c1 - ex.c0) * SCALE, (ey.c1 - ey.c0) * SCALE, NetPicture(net, frame))
      ensures !ok ==> tiledOutput == old(tiledOutput)
    {
      hide Stitched, Patched, Copied, Carries, Fits, NetPicture, GpuFrame, Shows, TileOf, IsCrop, Rendered, Get;
      var ex, ey := TileExtent(tx, frame.w, TILE, PAD), TileExtent(ty, frame.h, TILE, PAD);
      var tile := LoadTile(frame, ex, ey);
      TileIsValid(tile, frame, ex, ey);
      if !gpuOk(tx, ty) {
        return false;
      }
      var outcome := GpuFrame(net, tile, 0, 0);
      GpuFrameFull(net, tile);
      tileOutput := outcome.px;
      var at := Slot(ex.c0 * SCALE, ey.c0 * SCALE, frame.w * SCALE);
      var start := Slot((ex.c0 - ex.e0) * SCALE, (ey.c0 - ey.e0) * SCALE, outcome.w);
      var cw, ch := (ex.c1 - ex.c0) * SCALE, (ey.c1 - ey.c0) * SCALE;
      ghost var before := tiledOutput;
      FullFits(frame, ex, ey, tiledOutput, tileOutput);
      FullCoreCarries(net, tile, frame, tx, ty, tileOutput);
      tiledOutput := CopyRect(tiledOutput, at, tileOutput, start, cw, ch);
      StitchStep(tiledOutput, before, at, tileOutput, start, cw, ch, NetPicture(net, frame));
      PatchStep(tiledOutput, before, at, tileOutput, start, cw, ch, NetPicture(net, frame));
      return true;
    }

    /** The full-size stitch: every tile's core goes to its place in the 4x frame. */
    method ComposeFull(net: Network, frame: Image, gpuOk: (int, int) -> bool) returns (ok: bool)
      requires frame.Valid() && net.radius <= PAD
      modifies `tileInput, `tileOutput, `tiledOutput
      ensures ok <==> AllTilesServed(frame, gpuOk)
      ensures ok ==> Shows(tiledOutput, frame.w * SCALE, frame.h * SCALE, NetPicture(net, frame))
    {
      hide Stitched, Patched, NetPicture, Shows, Get;
      var outW, outH := frame.w * SCALE, frame.h * SCALE;
      if |tiledOutput| != outW * outH { tiledOutput := Resized(tiledOutput, outW * outH); }
      ghost var pic := NetPicture(net, frame);
      var ty := 0;
      ghost var j: nat := 0;
      StitchNothing(tiledOutput, outW, pic, 0, 0, 0);
      while ty < frame.h
        invariant ty == j * TILE && |tiledOutput| == outW * outH
        invariant Stitched(tiledOutput, outW, pic, 0, FramePlan.Min(ty, frame.h) * SCALE, FramePlan.Min(ty, frame.h) * SCALE)
        invariant forall a: nat, b: nat :: a * TILE < frame.w && b < j ==> gpuOk(a * TILE, b * TILE)
        decreases frame.h - ty
      {
        var ey := TileExtent(ty, frame.h, TILE, PAD);
        StitchNothing(tiledOutput, outW, pic, 0, ey.c0 * SCALE, ey.c1 * SCALE);
        var tx := 0;
        ghost var i: nat := 0;
        while tx < frame.w
          invariant tx == i * TILE && |tiledOutput| == outW * outH
          invariant Stitched(tiledOutput, outW, pic, FramePlan.Min(tx, frame.w) * SCALE, ey.c0 * SCALE, ey.c1 * SCALE)
          invariant forall a: nat, b: nat :: a * TILE < frame.w && b < j ==> gpuOk(a * TILE, b * TILE)
          invariant forall a: nat :: a < i ==> gpuOk(a * TILE, ty)
          decreases frame.w - tx
        {
          var served := StitchFullTile(net, frame, tx, ty, gpuOk);
          if !served {
            return false;
          }
          tx, i := tx + TILE, i + 1;
        }
        StitchBand(tiledOutput, outW, pic, ey.c0 * SCALE, ey.c1 * SCALE);
        ty, j := ty + TILE, j + 1;
      }
      StitchedShows(tiledOutput, outW, outH, pic);
      return true;
    }

    /** One tile of the downscaled path: box-averaged on the GPU, core straight to the target. */
    method StitchSmallTile(net: Network, frame: Image, tx: int, ty: int, f: nat, dw: nat, dh: nat,
                           gpuOk: (int, int) -> bool, dst: seq<Rgba8>) returns (ok: bool, r: seq<Rgba8>)
      requires frame.Valid() && net.radius <= PAD && 0 <= tx < frame.w && 0 <= ty < frame.h
      requires 0 < f && 0 < dw && 0 < dh && Scales(frame.w, f, dw) && Scales(frame.h, f, dh)
      requires |dst| == dw * dh
      requires var ex, ey := TileExtent(tx, frame.w, TILE, PAD), TileExtent(ty, frame.h, TILE, PAD);
        && ExtentAligned(ex, SCALE, f) && ExtentAligned(ey, SCALE, f)
        && var gx, gy := GridOf(ex, f), GridOf(ey, f);
        Stitched(dst, dw, SmallPicture(net, frame, dw, dh), gx.slot, gy.slot, gy.slot + gy.core)
      modifies `tileInput, `tileDownscaled
      ensures ok == gpuOk(tx, ty)
      ensures |r| == |dst|
      ensures var ex, ey := TileExtent(tx, frame.w, TILE, PAD), TileExtent(ty, frame.h, TILE, PAD);
        var gx, gy := GridOf(ex, f), GridOf(ey, f);
        ok ==>
          && Stitched(r, dw, SmallPicture(net, frame, dw, dh), gx.slot + gx.core, gy.slot, gy.slot + gy.core)
          && 0 <= gx.core && 0 <= gy.core
          && Patched(r, dst, Slot(gx.slot, gy.slot, dw), gx.core, gy.core, SmallPicture(net, frame, dw, dh))
      ensures !ok ==> r == dst
    {
      hide Stitched, Patched, Copied, Carries, Fits, NetPicture, GpuFrame, Shows, TileOf, IsCrop, Rendered, Get, BoxPixel,
        ExtentAligned, GridOf, TileExtent;
      r := dst;
      var ex, ey := TileExtent(tx, frame.w, TILE, PAD), TileExtent(ty, frame.h, TILE, PAD);
      ExtentOrder(tx, frame.w);
      ExtentOrder(ty, frame.h);
      var gx, gy := GridOf(ex, f), GridOf(ey, f);
      GridPositive(ex, f);
      GridPositive(ey, f);
      var tile := LoadTile(frame, ex, ey);
      TileIsValid(tile, frame, ex, ey);
      if !gpuOk(tx, ty) {
        return false, r;
      }
      var outcome := GpuFrame(net, tile, gx.full, gy.full);
      GpuFrameSmall(net, tile, gx.full, gy.full);
      tileDownscaled := outcome.px;
      var at, start := Slot(gx.slot, gy.slot, dw), Slot(gx.offset, gy.offset, outcome.w);
      SmallFits(frame, ex, ey, f, dw, dh, dst, tileDownscaled);
      SmallCoreCarries(net, tile, frame, tx, ty, f, dw, dh, tileDownscaled);
      r := CopyRect(dst, at, tileDownscaled, start, gx.core, gy.core);
      StitchStep(r, dst, at, tileDownscaled, start, gx.core, gy.core, SmallPicture(net, frame, dw, dh));
      PatchStep(r, dst, at, tileDownscaled, start, gx.core, gy.core, SmallPicture(net, frame, dw, dh));
      return true, r;
    }

    /** The downscaled stitch: tiles are shrunk one by one and land in the target directly. */
    method ComposeSmall(net: Network, frame: Image, f: nat, dw: nat, dh: nat,
                        gpuOk: (int, int) -> bool, dst: seq<Rgba8>) returns (ok: bool, r: seq<Rgba8>)
      requires frame.Valid() && net.radius <= PAD && |dst| == dw * dh
      requires 0 < f && 0 < dw && 0 < dh && Scales(frame.w, f, dw) && Scales(frame.h, f, dh)
      requires AxisAligned(frame.w, TILE, PAD, SCALE, f) && AxisAligned(frame.h, TILE, PAD, SCALE, f)
      modifies `tileInput, `tileDownscaled
      ensures ok <==> AllTilesServed(frame, gpuOk)
      ensures ok ==> Shows(r, dw, dh, SmallPicture(net, frame, dw, dh))
    {
      hide Stitched, NetPicture, Shows, Rendered, Get, BoxPixel, SmallPicture, ExtentAligned, GridOf, AxisAligned;
      r := dst;
      ghost var pic := SmallPicture(net, frame, dw, dh);
      var ty := 0;
      ghost var j: nat, doneY: int := 0, 0;
      StitchNothing(r, dw, pic, 0, 0, 0);
      while ty < frame.h
        invariant ty == j * TILE && |r| == dw * dh
        invariant doneY * f == FramePlan.Min(ty, frame.h) * SCALE
        invariant Stitched(r, dw, pic, 0, doneY, doneY)
        invariant forall a: nat, b: nat :: a * TILE < frame.w && b < j ==> gpuOk(a * TILE, b * TILE)
        decreases frame.h - ty
      {
        var ey := TileExtent(ty, frame.h, TILE, PAD);
        ghost var gy := GridOf(ey, f);
        AlignedTile(frame.h, j, f);
        GridNext(ey, f, doneY);
        StitchNothing(r, dw, pic, 0, doneY, gy.slot + gy.core);
        var tx := 0;
        ghost var i: nat, doneX: int := 0, 0;
        while tx < frame.w
          invariant tx == i * TILE && |r| == dw * dh
          invariant doneX * f == FramePlan.Min(tx, frame.w) * SCALE
          invariant Stitched(r, dw, pic, doneX, gy.slot, gy.slot + gy.core)
          invariant forall a: nat, b: nat :: a * TILE < frame.w && b < j ==> gpuOk(a * TILE, b * TILE)
          invariant forall a: nat :: a < i ==> gpuOk(a * TILE, ty)
          decreases frame.w - tx
        {
          ghost var ex := TileExtent(tx, frame.w, TILE, PAD);
          ghost var gx := GridOf(ex, f);
          AlignedTile(frame.w, i, f);
          GridNext(ex, f, doneX);
          var served;
          served, r := StitchSmallTile(net, frame, tx, ty, f, dw, dh, gpuOk, r);
          if !served {
            return false, r;
          }
          tx, i, doneX := tx + TILE, i + 1, gx.slot + gx.core;
        }
        Cancel(doneX, dw, f);
        StitchBand(r, dw, pic, gy.slot, gy.slot + gy.core);
        ty, j, doneY := ty + TILE, j + 1, gy.slot + gy.core;
      }
      Cancel(doneY, dh, f);
      StitchedShows(r, dw, dh, pic);
      return true, r;
    }

    /** compose: whichever branch runs, a served frame holds the whole-frame picture, and it
        is served exactly when every tile is. */
    method Compose(net: Network, frame: Image, targetW: int, targetH: int, gpuOk: (int, int) -> bool,
                   hw: nat, spawned: nat, schedule: seq<nat>, buf: seq<Rgba8>)
      returns (ok: bool, out: seq<Rgba8>, outW: nat, outH: nat)
      requires frame.Valid() && 0 < frame.w && 0 < frame.h && net.radius <= PAD
      requires Interleaving(schedule, ComposedSize(frame, targetW, targetH).1, hw, spawned)
      modifies this
      ensures ok <==> AllTilesServed(frame, gpuOk)
      ensures ok ==> (outW, outH) == ComposedSize(frame, targetW, targetH)
      ensures ok ==> Shows(out, outW, outH, ComposedPicture(net, frame, targetW, targetH))
    {
      outW, outH, out := frame.w * SCALE, frame.h * SCALE, buf;
      var downscale := WantsDownscale(targetW, targetH, outW, outH);
      var f := PlanTileDownscaleFactor(frame.w, frame.h, targetW, targetH, outW, outH, TILE, PAD, SCALE);
      if f > 0 {
        var dw, dh := outW / f, outH / f;
        DivModUnique(outW, f, targetW, 0);
        DivModUnique(outH, f, targetH, 0);
        MulStrict(1, f, dw);
        MulStrict(1, f, dh);
        if |out| != dw * dh { out := Resized(out, dw * dh); }
        ok, out := ComposeSmall(net, frame, f, dw, dh, gpuOk, out);
        outW, outH := dw, dh;
        return;
      }
      ok := ComposeFull(net, frame, gpuOk);
      if !ok { return; }
      if downscale {
        var nw, nh := FramePlan.Min(targetW, outW), FramePlan.Min(targetH, outH);
        var comp := Image(outW, outH, tiledOutput);
        FullIsShown(net, frame, tiledOutput);
        PosInRange(nw, nh, 0, 0);
        var small := new Rgba8[nw * nh](_ => OPAQUE_BLACK);
        FanOut(comp, small, nw, nh, hw, spawned, schedule);
        out := small[..];
        outW, outH := nw, nh;
      } else {
        out, tiledOutput := tiledOutput, out;
      }
    }
  }

  /** A buffer that shows the full frame is the full frame. */
  lemma FullIsShown(net: Network, frame: Image, buf: seq<Rgba8>)
    requires frame.Valid() && Shows(buf, frame.w * SCALE, frame.h * SCALE, NetPicture(net, frame))
    ensures Image(frame.w * SCALE, frame.h * SCALE, buf) == FullFrame(net, frame)
  {
    ShowsDetermines(buf, FullFrame(net, frame).px, frame.w * SCALE, frame.h * SCALE, NetPicture(net, frame));
  }

  function SmallPicture(net: Network, frame: Image, dw: nat, dh: nat): Picture
    requires frame.Valid() && 0 < dw && 0 < dh
  {
    BoxPicture(FullFrame(net, frame), dw, dh)
  }

  lemma GpuFrameSmall(net: Network, tile: Image, fw: nat, fh: nat)
    requires tile.Valid() && 0 < fw && 0 < fh
    ensures var out := GpuFrame(net, tile, fw, fh);
      && out.w == fw && out.h == fh && |out.px| == fw * fh
      && Shows(out.px, fw, fh, BoxPicture(FullFrame(net, tile), fw, fh))
  {
  }

  lemma GridPositive(t: Extent, f: int)
    requires 0 < f && 0 <= t.e0 <= t.c0 < t.c1 <= t.e1 && ExtentAligned(t, SCALE, f)
    ensures var g := GridOf(t, f);
      0 <= g.slot && 0 <= g.offset && 0 < g.core && g.offset + g.core <= g.full
  {
    var g := GridOf(t, f);
    GridExact(t, f);
    MulMonoIf(g.slot, -1, f);
    MulMonoIf(g.offset, -1, f);
    MulMonoIf(g.core, 0, f);
    assert (g.offset + g.core) * f == g.offset * f + g.core * f;
    MulStrictIf(g.full, g.offset + g.core, f);
  }

  lemma SmallFits(frame: Image, ex: Extent, ey: Extent, f: nat, dw: nat, dh: nat, dst: seq<Rgba8>, tileOut: seq<Rgba8>)
    requires 0 <= ex.e0 <= ex.c0 < ex.c1 <= ex.e1 <= frame.w && 0 <= ey.e0 <= ey.c0 < ey.c1 <= ey.e1 <= frame.h
    requires 0 < f && ExtentAligned(ex, SCALE, f) && ExtentAligned(ey, SCALE, f)
    requires Scales(frame.w, f, dw) && Scales(frame.h, f, dh) && |dst| == dw * dh
    requires var gx, gy := GridOf(ex, f), GridOf(ey, f);
      && 0 <= gx.full && 0 <= gy.full && |tileOut| == gx.full * gy.full
    ensures var gx, gy := GridOf(ex, f), GridOf(ey, f);
      && 0 <= gx.core && 0 <= gy.core
      && Fits(dst, Slot(gx.slot, gy.slot, dw), gx.core, gy.core)
      && Fits(tileOut, Slot(gx.offset, gy.offset, gx.full), gx.core, gy.core)
  {
    hide ExtentAligned, GridOf;
    var gx, gy := GridOf(ex, f), GridOf(ey, f);
    GridPositive(ex, f);
    GridPositive(ey, f);
    SlotInTarget(ex, f, frame.w, dw);
    SlotInTarget(ey, f, frame.h, dh);
    MulMono(gy.slot + gy.core, dh, dw);
    MulMono(gy.offset + gy.core, gy.full, gx.full);
  }

  lemma SlotInTarget(t: Extent, f: nat, size: int, d: nat)
    requires 0 < f && ExtentAligned(t, SCALE, f) && Scales(size, f, d) && t.c1 <= size
    ensures var g := GridOf(t, f); g.slot + g.core <= d
  {
    var g := GridOf(t, f);
    GridExact(t, f);
    assert (g.slot + g.core) * f == g.slot * f + g.core * f;
    MulStrictIf(d, g.slot + g.core, f);
  }

  lemma AlignedTile(size: int, k: nat, f: int)
    requires 0 < f && AxisAligned(size, TILE, PAD, SCALE, f) && k * TILE < size
    ensures ExtentAligned(TileExtent(k * TILE, size, TILE, PAD), SCALE, f)
  {
  }

  /** The next tile's slot begins where the stitched part ends, and ends where its core does. */
  lemma GridNext(t: Extent, f: int, done: int)
    requires 0 < f && ExtentAligned(t, SCALE, f) && done * f == t.c0 * SCALE
    ensures var g := GridOf(t, f); g.slot == done && (g.slot + g.core) * f == t.c1 * SCALE
  {
    var g := GridOf(t, f);
    GridExact(t, f);
    Cancel(g.slot, done, f);
    assert (g.slot + g.core) * f == g.slot * f + g.core * f;
  }

  lemma Cancel(a: int, b: int, f: int)
    requires 0 < f && (a * f == b * f || a * f == f * b)
    ensures a == b
  {
    MulStrictIf(a, b, f);
    MulStrictIf(b, a, f);
  }

  lemma StitchNothing(r: seq<Rgba8>, w: nat, pic: Picture, x0: int, y0: int, y1: int)
    requires x0 <= 0 && (y0 <= 0 || Stitched(r, w, pic, 0, y0, y0))
    ensures Stitched(r, w, pic, x0, y0, y1)
  {
  }

  lemma StitchBand(r: seq<Rgba8>, w: nat, pic: Picture, y0: int, y1: int)
    requires Stitched(r, w, pic, w, y0, y1)
    ensures Stitched(r, w, pic, 0, y1, y1)
  {
  }

  lemma TileIsValid(tile: Image, frame: Image, tx: Extent, ty: Extent)
    requires TileOf(tile, frame, tx, ty)
    ensures tile.Valid() && tile.w == tx.e1 - tx.e0 && tile.h == ty.e1 - ty.e0
  {
  }

  lemma GpuFrameFull(net: Network, tile: Image)
    requires tile.Valid()
    ensures GpuFrame(net, tile, 0, 0) == FullFrame(net, tile)
    ensures |FullFrame(net, tile).px| == (tile.w * SCALE) * (tile.h * SCALE)
    ensures Shows(FullFrame(net, tile).px, tile.w * SCALE, tile.h * SCALE, NetPicture(net, tile))
  {
  }

  lemma TileFits(frame: Image, tx: Extent, ty: Extent, buf: seq<Rgba8>)
    requires frame.Valid()
    requires 0 <= tx.e0 <= tx.e1 <= frame.w && 0 <= ty.e0 <= ty.e1 <= frame.h
    requires (tx.e1 - tx.e0) * (ty.e1 - ty.e0) <= |buf|
    ensures Fits(buf, Slot(0, 0, tx.e1 - tx.e0), tx.e1 - tx.e0, ty.e1 - ty.e0)
    ensures Fits(frame.px, Slot(tx.e0, ty.e0, frame.w), tx.e1 - tx.e0, ty.e1 - ty.e0)
  {
    MulMono(ty.e1, frame.h, frame.w);
  }

  lemma LoadedTile(frame: Image, tx: Extent, ty: Extent, before: seq<Rgba8>, buf: seq<Rgba8>)
    requires frame.Valid()
    requires 0 <= tx.e0 <= tx.e1 <= frame.w && 0 <= ty.e0 <= ty.e1 <= frame.h
    requires var ew, eh := tx.e1 - tx.e0, ty.e1 - ty.e0;
      && 0 <= ew * eh <= |buf|
      && Copied(buf, before, Slot(0, 0, ew), frame.px, Slot(tx.e0, ty.e0, frame.w), ew, eh)
    ensures var ew, eh := tx.e1 - tx.e0, ty.e1 - ty.e0;
      TileOf(Image(ew, eh, buf[..ew * eh]), frame, tx, ty)
  {
    var ew, eh := tx.e1 - tx.e0, ty.e1 - ty.e0;
    var tile := Image(ew, eh, buf[..ew * eh]);
    forall x, y | 0 <= x < ew && 0 <= y < eh ensures tile.At(x, y) == frame.At(tx.e0 + x, ty.e0 + y) {
      PosInRange(ew, eh, x, y);
      PosInRange(frame.w, frame.h, tx.e0 + x, ty.e0 + y);
      assert Get(buf, ew, x, y) == Get(frame.px, frame.w, x + tx.e0, y + ty.e0);
    }
  }

  lemma FullFits(frame: Image, ex: Extent, ey: Extent, comp: seq<Rgba8>, tileOut: seq<Rgba8>)
    requires 0 <= ex.e0 <= ex.c0 <= ex.c1 <= ex.e1 <= frame.w && 0 <= ey.e0 <= ey.c0 <= ey.c1 <= ey.e1 <= frame.h
    requires |comp| == (frame.w * SCALE) * (frame.h * SCALE)
    requires |tileOut| == ((ex.e1 - ex.e0) * SCALE) * ((ey.e1 - ey.e0) * SCALE)
    ensures var cw, ch := (ex.c1 - ex.c0) * SCALE, (ey.c1 - ey.c0) * SCALE;
      && Fits(comp, Slot(ex.c0 * SCALE, ey.c0 * SCALE, frame.w * SCALE), cw, ch)
      && Fits(tileOut, Slot((ex.c0 - ex.e0) * SCALE, (ey.c0 - ey.e0) * SCALE, (ex.e1 - ex.e0) * SCALE), cw, ch)
  {
    MulMono(ey.c1 * SCALE, frame.h * SCALE, frame.w * SCALE);
    MulMono((ey.c1 - ey.e0) * SCALE, (ey.e1 - ey.e0) * SCALE, (ex.e1 - ex.e0) * SCALE);
  }

  /** The size and pixels of a composed frame in numbers: four times the frame without a target, or one that
      asks for no fewer pixels either way; else the target, no side above that, and every pixel the rounded
      mean of its window. */
  lemma ComposedIs(net: Network, frame: Image, tw: int, th: int, x: nat, y: nat)
    requires frame.Valid() && 0 < frame.w && 0 < frame.h
    requires var s := ComposedSize(frame, tw, th); x < s.0 && y < s.1
    ensures var s, p := ComposedSize(frame, tw, th), ComposedPicture(net, frame, tw, th)(x, y);
      if tw > 0 && th > 0 && (tw < 4 * frame.w || th < 4 * frame.h) then
        && s.0 == (if tw < 4 * frame.w then tw else 4 * frame.w) && s.1 == (if th < 4 * frame.h then th else 4 * frame.h)
        && IsAverage(p, FullFrame(net, frame), s.0, s.1, x, y)
      else s == (4 * frame.w, 4 * frame.h) && p == NetPicture(net, frame)(x, y)
  {
    hide IsAverage;
    var s := ComposedSize(frame, tw, th);
    BoxPixelIsAverage(FullFrame(net, frame), s.0, s.1, x, y);
  }
}

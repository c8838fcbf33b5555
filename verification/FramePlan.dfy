/** The per-frame geometry decisions of native/linux-host/frame-plan.h. */
module FramePlan {
  import opened Arith

  const TILED_PIXEL_THRESHOLD := 1280 * 720

  predicate IsTiledFrame(width: int, height: int) { width * height > TILED_PIXEL_THRESHOLD }

  function Min(a: int, b: int): int { if a <= b then a else b }

  function Max(a: int, b: int): int { if a <= b then b else a }

  /** Bytes padded to the 16-byte channel step. */
  function AlignedFrameBytes(bytes: nat): (n: nat)
    ensures bytes <= n < bytes + 16 && n % 16 == 0
  {
    (bytes + 15) / 16 * 16
  }

  /** One tile along one axis: its core [c0, c1) inside its halo-expanded extent [e0, e1). */
  datatype Extent = Extent(c0: int, c1: int, e0: int, e1: int)

  function TileExtent(start: int, size: int, tile: int, pad: int): Extent {
    var c1 := Min(start + tile, size);
    Extent(start, c1, Max(0, start - pad), Min(size, c1 + pad))
  }

  predicate ExtentAligned(t: Extent, scale: int, f: int)
    requires f > 0
  {
    && (t.e0 * scale) % f == 0
    && ((t.c0 - t.e0) * scale) % f == 0
    && ((t.c1 - t.c0) * scale) % f == 0
    && ((t.e1 - t.e0) * scale) % f == 0
  }

  /** Every tile of the axis lies on the global grid of step f. */
  ghost predicate AxisAligned(size: int, tile: int, pad: int, scale: int, f: int)
    requires f > 0
  {
    forall k: nat :: k * tile < size ==> ExtentAligned(TileExtent(k * tile, size, tile, pad), scale, f)
  }

  predicate WantsDownscale(targetW: int, targetH: int, outW: int, outH: int) {
    targetW > 0 && targetH > 0 && (targetW < outW || targetH < outH)
  }

  /** f shrinks the composed frame to the target exactly and fits every tile. */
  ghost predicate TileFactor(f: int, width: int, height: int, targetW: int, targetH: int,
                             outW: int, outH: int, tile: int, pad: int, scale: int) {
    && f > 1 && targetW > 0 && targetH > 0
    && outW == f * targetW && outH == f * targetH
    && AxisAligned(height, tile, pad, scale, f)
    && AxisAligned(width, tile, pad, scale, f)
  }

  /** The checking loop along one axis. */
  method CheckAxis(size: int, tile: int, pad: int, scale: int, f: int) returns (ok: bool)
    requires 0 < tile && 0 < f
    ensures ok <==> AxisAligned(size, tile, pad, scale, f)
  {
    var t := 0;
    ghost var k: nat := 0;
    while t < size
      invariant t == k * tile
      invariant forall j: nat :: j < k && j * tile < size ==>
                  ExtentAligned(TileExtent(j * tile, size, tile, pad), scale, f)
    {
      var x := TileExtent(t, size, tile, pad);
      if (x.e0 * scale) % f != 0 || ((t - x.e0) * scale) % f != 0
         || ((x.c1 - t) * scale) % f != 0 || ((x.e1 - x.e0) * scale) % f != 0 {
        assert !ExtentAligned(TileExtent(k * tile, size, tile, pad), scale, f);
        return false;
      }
      assert (k + 1) * tile == k * tile + tile;
      t, k := t + tile, k + 1;
    }
    forall j: nat | j * tile < size
      ensures ExtentAligned(TileExtent(j * tile, size, tile, pad), scale, f)
    {
      MulMonoIf(k, j, tile);
    }
    return true;
  }

  /** The GPU box-downscale factor, or 0 when the CPU box pass must run: a factor is
      returned exactly when one exists. */
  method PlanTileDownscaleFactor(width: nat, height: nat, targetW: int, targetH: int,
                                 outW: nat, outH: nat, tile: int, pad: int, scale: int)
    returns (factor: int)
    requires 0 < tile
    ensures factor == 0 || TileFactor(factor, width, height, targetW, targetH, outW, outH, tile, pad, scale)
    ensures factor == 0 ==>
              forall f :: !TileFactor(f, width, height, targetW, targetH, outW, outH, tile, pad, scale)
  {
    var downscale := WantsDownscale(targetW, targetH, outW, outH);
    if !downscale || outW % targetW != 0 || outH % targetH != 0 {
      forall f | f > 1 && outW == f * targetW && outH == f * targetH && targetW > 0 && targetH > 0
        ensures false
      {
        DivModUnique(outW, targetW, f, 0);
        DivModUnique(outH, targetH, f, 0);
        MulStrict(1, f, targetW);
      }
      return 0;
    }
    var fw, fh := outW / targetW, outH / targetH;
    forall f | outW == f * targetW && outH == f * targetH ensures f == fw == fh {
      DivModUnique(outW, targetW, f, 0);
      DivModUnique(outH, targetH, f, 0);
    }
    if fw != fh || fw <= 1 {
      return 0;
    }
    var ok := CheckAxis(height, tile, pad, scale, fw);
    if !ok { return 0; }
    ok := CheckAxis(width, tile, pad, scale, fw);
    if !ok { return 0; }
    return fw;
  }
}

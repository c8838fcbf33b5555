/** The geometry chain of native/linux-host/upscale-core.h (run_upscale_impl): halving, governor,
    tiled decision, with the pixels each stage hands on. */
module UpscaleCore {
  import opened Arith
  import opened Wrappers
  import opened Frames
  import opened BoxDownscale
  import opened TileNetwork
  import opened FramePlan
  import opened Governor

  /** What the loaded runtime offers; the halving preproc shader is only built for fp16 storage. */
  datatype Runtime = Runtime(inferDiv: int, down2: bool, fp16: bool, governor: Params) {
    predicate Loaded() { (down2 ==> fp16) && governor.msPerPx > 0.0 && governor.minScale > 0.0 }
  }

  /** Where a frame goes: one GPU pass over `src`, which is w x h or, if the shader is to halve it, of
      the full size; or the tiled composer. */
  datatype Route = SinglePass(src: Image, w: nat, h: nat, preDown2: bool) | TiledPass(src: Image)

  function BoxImage(img: Image, dw: nat, dh: nat): (r: Image)
    requires img.Valid() && 0 < dw && 0 < dh
    ensures r.Valid() && r.w == dw && r.h == dh
  {
    Rendered(dw, dh, BoxPicture(img, dw, dh))
  }

  method BoxDownscaleRgba8(src: Image, dw: nat, dh: nat) returns (r: Image)
    requires src.Valid() && 0 < dw && 0 < dh
    ensures r == BoxImage(src, dw, dh)
  {
    var dst := new Rgba8[dw * dh](_ => OPAQUE_BLACK);
    BoxDownscaleRows(src, dst, dw, dh, 0, dh);
    r := Image(dw, dh, dst[..]);
    ghost var pic := BoxPicture(src, dw, dh);
    assert Shows(dst[..], dw, dh, pic) by {
      forall x, y | 0 <= x < dw && 0 <= y < dh
        ensures 0 <= Pos(dw, x, y) < |dst[..]| && dst[..][Pos(dw, x, y)] == pic(x, y)
      {
        PosInRange(dw, dh, x, y);
      }
    }
    ShowsDetermines(dst[..], Render(dw, dh, pic), dw, dh, pic);
  }

  predicate Halves(rt: Runtime, img: Image, tw: int, th: int) {
    rt.inferDiv == 2 && tw > 0 && th > 0 && img.w >= 2 && img.h >= 2
  }

  function Half(n: nat): (r: nat)
    ensures 2 * r == n || 2 * r == n + 1
  {
    (n + 1) / 2
  }

  /** The halving is left to the GPU. */
  predicate HalvesOnGpu(rt: Runtime, img: Image, tw: int, th: int) {
    Halves(rt, img, tw, th) && rt.down2 && !IsTiledFrame(Half(img.w), Half(img.h))
  }

  /** The pixels before the governor. */
  function Halved(rt: Runtime, img: Image, tw: int, th: int): (r: Image)
    requires img.Valid()
    ensures r.Valid()
  {
    if Halves(rt, img, tw, th) && !HalvesOnGpu(rt, img, tw, th) then BoxImage(img, Half(img.w), Half(img.h)) else img
  }

  /** The governor's plan for the pixels it is given. */
  function Plan(rt: Runtime, img: Image, tw: int, th: int, root: real): Option<(int, int)> {
    if rt.fp16 then None else PlanFp32Governor(img.w, img.h, tw, th, rt.governor, root)
  }

  function Governed(rt: Runtime, img: Image, tw: int, th: int, root: real): (r: Image)
    requires img.Valid()
    ensures r.Valid()
  {
    var p := Plan(rt, img, tw, th, root);
    if p.None? then img else BoxImage(img, p.value.0, p.value.1)
  }

  /** The buffer handed on always has the size announced with it, so no stage reads a frame in rows of
      the wrong length: the shader halving, which leaves the full frame in place under halved
      dimensions, and the governor, which would box it by those, never meet. `root` stands for the
      square root the governor takes. */
  method RunUpscale(rt: Runtime, frame: Image, targetW: int, targetH: int, root: real) returns (route: Route)
    requires rt.Loaded() && frame.Valid()
    ensures route.SinglePass? ==>
      if route.preDown2 then route.src == frame && route.w == Half(frame.w) && route.h == Half(frame.h)
      else route.w == route.src.w && route.h == route.src.h
    ensures match route
      case TiledPass(src) => src.w * src.h > 921600
      case SinglePass(_, w, h, _) => w * h <= 921600
    ensures HalvesOnGpu(rt, frame, targetW, targetH) ==>
      route == SinglePass(frame, Half(frame.w), Half(frame.h), true)
    ensures !HalvesOnGpu(rt, frame, targetW, targetH) ==>
      var src := Governed(rt, Halved(rt, frame, targetW, targetH), targetW, targetH, root);
      route == if IsTiledFrame(src.w, src.h) then TiledPass(src) else SinglePass(src, src.w, src.h, false)
  {
    var rgba, width, height := frame, frame.w, frame.h;
    var gpuPreDown2 := false;
    if rt.inferDiv == 2 && targetW > 0 && targetH > 0 && width >= 2 && height >= 2 {
      var sw, sh := (width + 1) / 2, (height + 1) / 2;
      var smallTiled := IsTiledFrame(sw, sh);
      if rt.down2 && !smallTiled {
        gpuPreDown2 := true;
        width := sw;
        height := sh;
      } else {
        rgba := BoxDownscaleRgba8(rgba, sw, sh);
        width := sw;
        height := sh;
      }
    }
    if !rt.fp16 {
      var plan := PlanFp32Governor(width, height, targetW, targetH, rt.governor, root);
      if plan.Some? {
        rgba := BoxDownscaleRgba8(rgba, plan.value.0, plan.value.1);
        width := plan.value.0;
        height := plan.value.1;
      }
    }
    var tiled := IsTiledFrame(width, height);
    return if tiled then TiledPass(rgba) else SinglePass(rgba, width, height, gpuPreDown2);
  }

  /** A governed frame of at least two pixels a side runs in a single pass, on fewer pixels than
      it came with. */
  lemma GovernedRunsOnce(rt: Runtime, img: Image, tw: int, th: int, root: real)
    requires rt.Loaded() && img.Valid() && 2 <= img.w && 2 <= img.h && 0.0 <= root
    requires Plan(rt, img, tw, th, root).Some?
    ensures var g := Governed(rt, img, tw, th, root);
      !IsTiledFrame(g.w, g.h) && g.w * g.h < img.w * img.h && g.w <= img.w && g.h <= img.h
  {
    NeverEnlargesIff(img.w, img.h, tw, th, rt.governor, root);
    NeverTiled(img.w, img.h, tw, th, rt.governor, root);
  }

  /** The halving in numbers: with a divisor of 2 and a target, a frame of at least 2 x 2 is halved, sides
      rounded up; by the shader if it has one and the half has at most 921600 pixels, else by the box. And
      with fp16 storage the governor has no say. */
  lemma HalvingIs(rt: Runtime, img: Image, tw: int, th: int, hw: nat, hh: nat, root: real)
    requires img.Valid() && img.w <= 2 * hw <= img.w + 1 && img.h <= 2 * hh <= img.h + 1
    ensures HalvesOnGpu(rt, img, tw, th)
      <==> rt.inferDiv == 2 && tw > 0 && th > 0 && img.w >= 2 && img.h >= 2 && rt.down2 && hw * hh <= 921600
    ensures Halved(rt, img, tw, th)
      == if rt.inferDiv == 2 && tw > 0 && th > 0 && img.w >= 2 && img.h >= 2 && !(rt.down2 && hw * hh <= 921600)
         then BoxImage(img, hw, hh) else img
    ensures rt.fp16 ==> Governed(rt, img, tw, th, root) == img
  {
    assert Half(img.w) == hw && Half(img.h) == hh;
  }
}

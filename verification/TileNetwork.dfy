/** The super-resolution network as an abstract kernel, and why a halo makes tiling exact. */
module TileNetwork {
  import opened Arith
  import opened Frames
  import opened RealSums
  import opened BoxDownscale
  import opened BoxLaws
  import opened Wrappers

  const SCALE := 4

  /** What the kernel sees: the (2r + 1) x (2r + 1) neighbourhood, None beyond the frame. */
  type Patch = seq<seq<Option<Rgba8>>>

  /** A network of receptive radius `radius`: each output pixel is a function of the patch
      around its input pixel and of its position in the 4 x 4 output cell. Bytes come out
      because the post-processing shader quantises every tap first. */
  datatype Network = Network(radius: nat, tap: (Patch, int, int) -> Rgba8)

  function PatchAt(img: Image, cx: int, cy: int, r: nat): Patch
    requires img.Valid()
  {
    seq(2 * r + 1, j => seq(2 * r + 1, i => img.Peek(cx - r + i, cy - r + j)))
  }

  /** The network's 4x output on a frame. */
  function NetPicture(net: Network, img: Image): Picture
    requires img.Valid()
  {
    (x, y) => net.tap(PatchAt(img, x / SCALE, y / SCALE, net.radius), x % SCALE, y % SCALE)
  }

  /** A buffer holding a picture. */
  function Render(w: nat, h: nat, pic: Picture): (buf: seq<Rgba8>)
    ensures Shows(buf, w, h, pic)
  {
    var buf := seq(w * h, k requires 0 <= k < w * h => if w == 0 then OPAQUE_BLACK else pic(k % w, k / w));
    assert Shows(buf, w, h, pic) by {
      forall x, y | 0 <= x < w && 0 <= y < h
        ensures 0 <= Pos(w, x, y) < |buf| && buf[Pos(w, x, y)] == pic(x, y)
      {
        PosInRange(w, h, x, y);
        DivModUnique(Pos(w, x, y), w, y, x);
      }
    }
    buf
  }

  function Rendered(w: nat, h: nat, pic: Picture): (img: Image)
    ensures img.Valid() && img.w == w && img.h == h
  {
    Image(w, h, Render(w, h, pic))
  }

  function BoxPicture(img: Image, dw: nat, dh: nat): Picture
    requires img.Valid() && 0 < dw && 0 < dh
  {
    (x, y) => BoxPixel(img, dw, dh, x, y)
  }

  /** The whole 4x output as bytes. */
  function FullFrame(net: Network, img: Image): (full: Image)
    requires img.Valid()
    ensures full.Valid() && full.w == img.w * SCALE && full.h == img.h * SCALE
  {
    Rendered(img.w * SCALE, img.h * SCALE, NetPicture(net, img))
  }

  /** run_gpu_frame as the composer uses it: network, then identity or box post-processing. */
  function GpuFrame(net: Network, img: Image, fw: nat, fh: nat): (out: Image)
    requires img.Valid()
    ensures out.Valid()
  {
    var full := FullFrame(net, img);
    if 0 < fw && 0 < fh then Rendered(fw, fh, BoxPicture(full, fw, fh)) else full
  }

  // ---- locality ---------------------------------------------------------------------------

  ghost predicate IsCrop(tile: Image, img: Image, ex: int, ey: int) {
    && tile.Valid() && img.Valid()
    && 0 <= ex && ex + tile.w <= img.w && 0 <= ey && ey + tile.h <= img.h
    && forall x, y :: 0 <= x < tile.w && 0 <= y < tile.h ==> tile.At(x, y) == img.At(ex + x, ey + y)
  }

  /** Along one axis: within r of input coordinate c, tile and frame end at the same places. */
  ghost predicate Covers(e0: int, e1: int, size: int, c: int, r: nat) {
    && (e0 == 0 || e0 <= c - r)
    && (e1 == size || c + r < e1)
  }

  lemma SamePeek(tile: Image, img: Image, ex: int, ey: int, x: int, y: int)
    requires IsCrop(tile, img, ex, ey)
    requires ex <= x < ex + tile.w <==> 0 <= x < img.w
    requires ey <= y < ey + tile.h <==> 0 <= y < img.h
    ensures tile.Peek(x - ex, y - ey) == img.Peek(x, y)
  {
    if img.Inside(x, y) {
      assert tile.At(x - ex, y - ey) == img.At(ex + (x - ex), ey + (y - ey));
    }
  }

  lemma SamePatch(tile: Image, img: Image, ex: int, ey: int, cx: int, cy: int, r: nat)
    requires IsCrop(tile, img, ex, ey)
    requires Covers(ex, ex + tile.w, img.w, cx, r) && Covers(ey, ey + tile.h, img.h, cy, r)
    ensures PatchAt(tile, cx - ex, cy - ey, r) == PatchAt(img, cx, cy, r)
  {
    var a, b := PatchAt(tile, cx - ex, cy - ey, r), PatchAt(img, cx, cy, r);
    forall j | 0 <= j < 2 * r + 1 ensures a[j] == b[j] {
      forall i | 0 <= i < 2 * r + 1 ensures a[j][i] == b[j][i] {
        SamePeek(tile, img, ex, ey, cx - r + i, cy - r + j);
      }
    }
  }

  /** Locality: inside the covered core, the tile's network output is the frame's. */
  lemma SameOutput(net: Network, tile: Image, img: Image, ex: int, ey: int, x: int, y: int)
    requires IsCrop(tile, img, ex, ey)
    requires Covers(ex, ex + tile.w, img.w, x / SCALE, net.radius)
    requires Covers(ey, ey + tile.h, img.h, y / SCALE, net.radius)
    ensures NetPicture(net, tile)(x - ex * SCALE, y - ey * SCALE) == NetPicture(net, img)(x, y)
  {
    SamePatch(tile, img, ex, ey, x / SCALE, y / SCALE, net.radius);
  }

  // ---- box averages of corresponding blocks --------------------------------------------------

  function PeekFrom(img: Image, x0: int, y0: int, i: int, j: int): Option<Rgba8>
    requires img.Valid()
  {
    img.Peek(x0 + i, y0 + j)
  }

  /** The f x f blocks at (x0, y0) of `a` and at (x1, y1) of `b` hold the same pixels. */
  ghost predicate SameBlock(a: Image, x0: int, y0: int, b: Image, x1: int, y1: int, f: nat)
    requires a.Valid() && b.Valid()
  {
    forall i, j :: 0 <= i < f && 0 <= j < f ==> PeekFrom(a, x0, y0, i, j) == PeekFrom(b, x1, y1, i, j)
  }

  lemma SameBlockSum(a: Image, ax: int, ay: int, b: Image, bx: int, yb: int, c: nat, f: nat)
    requires a.Valid() && b.Valid()
    requires SameBlock(a, ax * f, ay * f, b, bx * f, yb * f, f)
    ensures BlockSum(a, c, f, ax, ay) == BlockSum(b, c, f, bx, yb)
  {
    hide Sum;
    var p, q := From(BlockRows(a, c, f, ax), ay * f), From(BlockRows(b, c, f, bx), yb * f);
    forall j | 0 <= j < f ensures p(j) == q(j) {
      SameBlockRow(a, ax * f, ay * f, b, bx * f, yb * f, c, f, j);
    }
    SumCong(f, p, q);
  }

  lemma SameBlockRow(a: Image, x0: int, y0: int, b: Image, x1: int, y1: int, c: nat, f: nat, j: int)
    requires a.Valid() && b.Valid() && 0 <= j < f
    requires SameBlock(a, x0, y0, b, x1, y1, f)
    ensures Sum(f, From(TapRow(a, c, y0 + j), x0)) == Sum(f, From(TapRow(b, c, y1 + j), x1))
  {
    hide Sum;
    var p, q := From(TapRow(a, c, y0 + j), x0), From(TapRow(b, c, y1 + j), x1);
    forall i | 0 <= i < f ensures p(i) == q(i) {
      PeekTap(a, c, x0 + i, y0 + j);
      PeekTap(b, c, x1 + i, y1 + j);
      assert PeekFrom(a, x0, y0, i, j) == PeekFrom(b, x1, y1, i, j);
    }
    SumCong(f, p, q);
  }

  lemma PeekTap(img: Image, c: nat, x: int, y: int)
    requires img.Valid()
    ensures Tap(img, c, x, y) == match img.Peek(x, y) case None => 0.0 case Some(p) => Chan(p, c) as real
  {
  }

  /** Two images that agree on corresponding f x f blocks downscale to the same pixel. */
  lemma SameBoxPixel(a: Image, aw: nat, ah: nat, ax: int, ay: int, b: Image, bw: nat, bh: nat, bx: int, yb: int, f: nat)
    requires a.Valid() && 0 < f && a.w == f * aw && a.h == f * ah && 0 <= ax < aw && 0 <= ay < ah
    requires b.Valid() && b.w == f * bw && b.h == f * bh && 0 <= bx < bw && 0 <= yb < bh
    requires SameBlock(a, ax * f, ay * f, b, bx * f, yb * f, f)
    ensures BoxPixel(a, aw, ah, ax, ay) == BoxPixel(b, bw, bh, bx, yb)
  {
    hide BoxValue, Quantise;
    SameBoxValue(a, aw, ah, ax, ay, b, bw, bh, bx, yb, f, 0);
    SameBoxValue(a, aw, ah, ax, ay, b, bw, bh, bx, yb, f, 1);
    SameBoxValue(a, aw, ah, ax, ay, b, bw, bh, bx, yb, f, 2);
  }

  lemma SameBoxValue(a: Image, aw: nat, ah: nat, ax: int, ay: int, b: Image, bw: nat, bh: nat, bx: int, yb: int,
                     f: nat, c: nat)
    requires a.Valid() && 0 < f && a.w == f * aw && a.h == f * ah && 0 <= ax < aw && 0 <= ay < ah
    requires b.Valid() && b.w == f * bw && b.h == f * bh && 0 <= bx < bw && 0 <= yb < bh
    requires SameBlock(a, ax * f, ay * f, b, bx * f, yb * f, f)
    ensures BoxValue(a, aw, ah, c, ax, ay) == BoxValue(b, bw, bh, c, bx, yb)
  {
    hide *;
    IntegerFactorIsPlainMean(a, f, aw, ah, c, ax, ay);
    IntegerFactorIsPlainMean(b, f, bw, bh, c, bx, yb);
    SameBlockSum(a, ax, ay, b, bx, yb, c, f);
  }
}

/** RGBA8 frames as the native host holds them: one row-major buffer of 4-byte pixels. */
module Frames {
  import opened Arith
  import opened Wrappers

  type Byte = b: int | 0 <= b <= 255

  datatype Rgba8 = Rgba8(r: Byte, g: Byte, b: Byte, a: Byte)

  const OPAQUE_BLACK := Rgba8(0, 0, 0, 255)

  /** Buffer index of pixel (x, y) in rows of `w` pixels. */
  function Pos(w: int, x: int, y: int): int { y * w + x }

  lemma PosInRange(w: nat, h: nat, x: int, y: int)
    requires 0 <= x < w && 0 <= y < h
    ensures 0 <= Pos(w, x, y) < w * h
  {
    MulStrict(y, h, w);
    MulMono(0, y, w);
  }

  lemma PosInjective(w: nat, x: int, y: int, x': int, y': int)
    requires 0 <= x < w && 0 <= x' < w
    requires Pos(w, x, y) == Pos(w, x', y')
    ensures x == x' && y == y'
  {
    DivModUnique(Pos(w, x, y), w, y, x);
    DivModUnique(Pos(w, x', y'), w, y', x');
  }

  lemma PosSurjective(w: nat, h: nat, k: int)
    requires 0 <= k < w * h
    ensures 0 < w && 0 <= k % w < w && 0 <= k / w < h && k == Pos(w, k % w, k / w)
  {
    assert w != 0;
    DivInRange(k, w, h);
  }

  datatype Image = Image(w: nat, h: nat, px: seq<Rgba8>) {
    predicate Valid() { |px| == w * h }

    predicate Inside(x: int, y: int) { 0 <= x < w && 0 <= y < h }

    function At(x: int, y: int): Rgba8
      requires Valid() && Inside(x, y)
    {
      PosInRange(w, h, x, y);
      px[Pos(w, x, y)]
    }

    /** The pixel, or None beyond the frame's edge. */
    function Peek(x: int, y: int): Option<Rgba8>
      requires Valid()
    {
      if Inside(x, y) then Some(At(x, y)) else None
    }
  }

  /** A pixel map that a buffer is compared with. */
  type Picture = (int, int) -> Rgba8

  /** The buffer holds exactly the picture's w x h pixels. */
  ghost predicate Shows(buf: seq<Rgba8>, w: nat, h: nat, pic: Picture) {
    && |buf| == w * h
    && forall x, y :: 0 <= x < w && 0 <= y < h ==>
         0 <= Pos(w, x, y) < |buf| && buf[Pos(w, x, y)] == pic(x, y)
  }

  /** A picture determines the buffer that shows it: no pixel is left open. */
  lemma ShowsDetermines(a: seq<Rgba8>, b: seq<Rgba8>, w: nat, h: nat, pic: Picture)
    requires Shows(a, w, h, pic) && Shows(b, w, h, pic)
    ensures a == b
  {
    forall k | 0 <= k < |a| ensures a[k] == b[k] {
      PosSurjective(w, h, k);
      assert a[Pos(w, k % w, k / w)] == b[Pos(w, k % w, k / w)];
    }
  }
}

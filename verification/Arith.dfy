/** The few non-linear facts the index and window arithmetic rests on. */
module Arith {

  lemma MulMono(a: int, b: int, c: int)
    requires a <= b && 0 <= c
    ensures a * c <= b * c
  {
    assert b * c - a * c == (b - a) * c;
  }

  lemma MulStrict(a: int, b: int, c: int)
    requires a < b && 0 <= c
    ensures a * c + c <= b * c
  {
    MulMono(a + 1, b, c);
    assert (a + 1) * c == a * c + c;
  }

  /** The same two as implications, for use where the premise is about to be refuted. */
  lemma MulMonoIf(a: int, b: int, c: int)
    ensures a <= b && 0 <= c ==> a * c <= b * c
  {
    if a <= b && 0 <= c { MulMono(a, b, c); }
  }

  lemma MulStrictIf(a: int, b: int, c: int)
    ensures a < b && 0 <= c ==> a * c + c <= b * c
  {
    if a < b && 0 <= c { MulStrict(a, b, c); }
  }

  /** Quotient and remainder are determined by where they land. */
  lemma DivModUnique(k: int, w: int, q: int, r: int)
    requires 0 <= r < w && k == q * w + r
    ensures k / w == q && k % w == r
  {
    var q', r' := k / w, k % w;
    assert k == q' * w + r';
    MulStrictIf(q, q', w);
    MulStrictIf(q', q, w);
  }

  lemma DivInRange(k: int, w: int, h: int)
    requires 0 <= k < w * h && 0 < w
    ensures 0 <= k / w < h
  {
    var q := k / w;
    assert k == q * w + k % w;
    MulStrictIf(h - 1, q, w);
    assert (h - 1) * w + w == w * h;
  }
}

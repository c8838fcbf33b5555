/** Number tokens of a dimension expression and the textual normal form the shader generator
    compares them in (native/tools/generate_anime4k_models.py, line 344). */
module Numerals {

  type Digit = d: int | 0 <= d <= 9

  /** An optional exponent: its mark ('e' or 'E'), its sign as written, and its digits. */
  datatype Exponent = NoExponent | Exponent(mark: char, sign: string, digits: seq<Digit>)

  /** A number as written: sign, whole part, whether a point is there, fraction, exponent. */
  datatype Numeral = Numeral(sign: string, whole: seq<Digit>, point: bool, frac: seq<Digit>, exp: Exponent)

  ghost predicate IsSign(s: string) { s == "" || s == "+" || s == "-" }

  /** The token grammar. */
  ghost predicate IsToken(n: Numeral) {
    && IsSign(n.sign)
    && (if n.point then |n.whole| + |n.frac| > 0 else |n.whole| > 0 && n.frac == [])
    && (n.exp.Exponent? ==> (n.exp.mark == 'e' || n.exp.mark == 'E') && IsSign(n.exp.sign) && n.exp.digits != [])
  }

  // ---- values -----------------------------------------------------------------------------------

  function Whole(ds: seq<Digit>): nat {
    if ds == [] then 0 else Whole(ds[..|ds| - 1]) * 10 + ds[|ds| - 1]
  }

  function Fraction(ds: seq<Digit>): (v: real)
    ensures 0.0 <= v
  {
    if ds == [] then 0.0 else (ds[0] as real + Fraction(ds[1..])) / 10.0
  }

  function Pow10(k: nat): (p: real)
    ensures 0.0 < p
  {
    if k == 0 then 1.0 else 10.0 * Pow10(k - 1)
  }

  function Mantissa(n: Numeral): (v: real)
    ensures 0.0 <= v
  {
    Whole(n.whole) as real + Fraction(n.frac)
  }

  function Scale(e: Exponent): (v: real)
    ensures 0.0 < v
  {
    match e
    case NoExponent => 1.0
    case Exponent(_, sign, digits) => if sign == "-" then 1.0 / Pow10(Whole(digits)) else Pow10(Whole(digits))
  }

  function Sign(s: string): real { if s == "-" then -1.0 else 1.0 }

  function Value(n: Numeral): real { Sign(n.sign) * (Mantissa(n) * Scale(n.exp)) }

  // ---- the normal form -----------------------------------------------------------------------------

  function StripZeros(ds: seq<Digit>): seq<Digit> {
    if ds != [] && ds[|ds| - 1] == 0 then StripZeros(ds[..|ds| - 1]) else ds
  }

  /** Text with a point loses its trailing zeros, then a trailing point. After an exponent the
      zeros that go are the exponent's. */
  function Canon(n: Numeral): Numeral {
    if !n.point then n
    else if n.exp.Exponent? then n.(exp := n.exp.(digits := StripZeros(n.exp.digits)))
    else
      var frac := StripZeros(n.frac);
      n.(point := frac != [], frac := frac)
  }

  predicate IsOne(n: Numeral) { n == Numeral("", [1], false, [], NoExponent) }

  lemma {:induction false} FractionTail(ds: seq<Digit>)
    ensures Fraction(ds + [0]) == Fraction(ds)
  {
    if ds == [] {
      assert [0 as Digit][1..] == [];
    } else {
      FractionTail(ds[1..]);
      assert (ds + [0])[1..] == ds[1..] + [0];
    }
  }

  lemma {:induction false} StripKeepsFraction(ds: seq<Digit>)
    ensures Fraction(StripZeros(ds)) == Fraction(ds)
  {
    if ds != [] && ds[|ds| - 1] == 0 {
      StripKeepsFraction(ds[..|ds| - 1]);
      FractionTail(ds[..|ds| - 1]);
      assert ds == ds[..|ds| - 1] + [0];
    }
  }

  lemma {:induction false} StripShrinks(ds: seq<Digit>)
    ensures Whole(StripZeros(ds)) <= Whole(ds)
    ensures ds != [] && ds[|ds| - 1] == 0 && Whole(ds) > 0 ==> Whole(StripZeros(ds)) < Whole(ds)
    ensures Whole(ds) == 0 ==> Whole(StripZeros(ds)) == 0
  {
    if ds != [] && ds[|ds| - 1] == 0 {
      StripShrinks(ds[..|ds| - 1]);
    }
  }

  lemma {:induction false} Pow10Grows(j: nat, k: nat)
    requires j < k
    ensures Pow10(j) < Pow10(k)
  {
    if j + 1 < k { Pow10Grows(j, k - 1); }
  }

  /** The exponent digits that are stripped matter: there are some, and the value is not
      indifferent to them. */
  predicate LosesExponent(n: Numeral) {
    && n.point && n.exp.Exponent?
    && n.exp.digits != [] && n.exp.digits[|n.exp.digits| - 1] == 0
    && Whole(n.exp.digits) != 0
    && Mantissa(n) != 0.0
  }

  lemma ScaleOrder(e: Exponent, ds: seq<Digit>)
    requires e.Exponent?
    ensures Whole(ds) < Whole(e.digits) ==> Scale(e.(digits := ds)) != Scale(e)
    ensures Whole(ds) == Whole(e.digits) ==> Scale(e.(digits := ds)) == Scale(e)
  {
    if Whole(ds) < Whole(e.digits) {
      Pow10Grows(Whole(ds), Whole(e.digits));
      var p, q := Pow10(Whole(ds)), Pow10(Whole(e.digits));
      InverseOrder(p, q);
    }
  }

  lemma InverseOrder(p: real, q: real)
    requires 0.0 < p < q
    ensures 1.0 / q < 1.0 / p
  {
    var a, b := 1.0 / p, 1.0 / q;
    assert a * p == 1.0 && b * q == 1.0;
    assert 0.0 < b;
    assert (a - b) * p == b * (q - p) > 0.0;
  }

  lemma ProductDiffers(s: real, m: real, a: real, b: real)
    requires s != 0.0 && m != 0.0
    ensures s * (m * a) == s * (m * b) <==> a == b
  {
    if s * (m * a) == s * (m * b) {
      assert s * (m * (a - b)) == 0.0;
      assert m * (a - b) == 0.0;
    }
  }

  /** The normal form denotes the written number exactly when no significant exponent digit
      is stripped. "1.5e10" becomes "1.5e1". */
  lemma CanonExactIff(n: Numeral)
    ensures Value(Canon(n)) == Value(n) <==> !LosesExponent(n)
  {
    StripKeepsFraction(n.frac);
    var c := Canon(n);
    SameUpToScale(n, c);
    hide Value, Scale, Fraction, Pow10;
    if n.point && n.exp.Exponent? {
      StripShrinks(n.exp.digits);
      ScaleOrder(n.exp, StripZeros(n.exp.digits));
    }
  }

  lemma SameUpToScale(n: Numeral, c: Numeral)
    requires c.sign == n.sign && Mantissa(c) == Mantissa(n)
    ensures Value(c) == Value(n) <==> Mantissa(n) == 0.0 || Scale(c.exp) == Scale(n.exp)
  {
    hide Scale, Mantissa;
    if Mantissa(n) != 0.0 {
      ProductDiffers(Sign(n.sign), Mantissa(n), Scale(c.exp), Scale(n.exp));
    }
  }

  lemma OneIsOne(n: Numeral)
    requires IsOne(n)
    ensures Value(n) == 1.0
  {
    assert Whole([1]) == 1 by { assert [1 as Digit][..0] == []; }
  }

  // ---- numbers with one normal form differ by a power of 10^9 ---------------------------------------

  function PowSigned(k: int): (p: real)
    ensures 0.0 < p
  {
    if k >= 0 then Pow10(k) else 1.0 / Pow10(-k)
  }

  lemma {:induction false} Pow10Add(j: nat, k: nat)
    ensures Pow10(j + k) == Pow10(j) * Pow10(k)
  {
    if k > 0 {
      Pow10Add(j, k - 1);
      var a, b := Pow10(j), Pow10(k - 1);
      assert 10.0 * (a * b) == a * (10.0 * b);
    }
  }

  lemma QuotientOf(p: real, q: real, r: real)
    requires p * q == r && 0.0 < p && 0.0 < q
    ensures r / p == q && r / q == p && (1.0 / r) * p == 1.0 / q && (1.0 / p) * (1.0 / q) == 1.0 / r
  {
    assert 0.0 < r;
    var a, b, c := 1.0 / p, 1.0 / q, 1.0 / r;
    assert a * p == 1.0 && b * q == 1.0 && c * r == 1.0;
    assert (a * b) * r == (a * p) * (b * q);
    assert (a * b - c) * r == 0.0;
    assert c * p == (a * b) * p == b * (a * p);
  }

  lemma QuotientMixed(p: real, q: real, r: real)
    requires p * q == r && 0.0 < p && 0.0 < q
    ensures p == r * (1.0 / q) && 1.0 / p == q * (1.0 / r)
  {
    assert q * p == r;
    QuotientOf(q, p, r);
    DivIsMul(r, q);
    Commute(1.0 / r, q);
  }

  lemma PowMixed(a: nat, b: nat, c: nat)
    requires a + b == c
    ensures Pow10(a) == Pow10(c) * (1.0 / Pow10(b))
    ensures 1.0 / Pow10(a) == Pow10(b) * (1.0 / Pow10(c))
  {
    hide Pow10;
    var p, q, r := Pow10(a), Pow10(b), Pow10(c);
    QuotientMixed(p, q, r) by {
      Pow10Add(a, b);
      assert Pow10(a + b) == r;
    }
  }

  lemma DivIsMul(a: real, b: real)
    requires b != 0.0
    ensures a / b == a * (1.0 / b)
  {
  }

  lemma Commute(a: real, b: real)
    ensures a * b == b * a
  {
  }

  lemma PowSignedIs(k: int)
    ensures k >= 0 ==> PowSigned(k) == Pow10(k)
    ensures k <= 0 ==> PowSigned(k) == 1.0 / Pow10(-k)
  {
  }

  lemma PowSignedAdd(j: int, k: int)
    ensures PowSigned(j + k) == PowSigned(j) * PowSigned(k)
  {
    hide Pow10, PowSigned;
    PowSignedIs(j);
    PowSignedIs(k);
    PowSignedIs(j + k);
    if j >= 0 && k >= 0 {
      Pow10Add(j, k);
    } else if j < 0 && k < 0 {
      Pow10Add(-j, -k);
      QuotientOf(Pow10(-j), Pow10(-k), Pow10(-j - k));
    } else if j < 0 {
      PowOpposite(k, -j);
    } else {
      PowOpposite(j, -k);
    }
  }

  lemma PowOpposite(a: nat, b: nat)
    ensures PowSigned(a - b) == Pow10(a) * (1.0 / Pow10(b))
    ensures PowSigned(a - b) == (1.0 / Pow10(b)) * Pow10(a)
  {
    hide Pow10, PowSigned;
    PowSignedIs(a - b);
    Commute(Pow10(a), 1.0 / Pow10(b));
    if a >= b {
      PowMixed(a - b, b, a);
    } else {
      PowMixed(b - a, a, b);
      assert -(a - b) == b - a;
    }
  }

  /** Equal, up to a power of 10^9, unless one of them is zero. */
  ghost predicate Related(v: real, w: real) {
    v == 0.0 || w == 0.0 || exists k: int :: v == w * PowSigned(9 * k)
  }

  lemma RelatedBy(v: real, w: real, k: int)
    requires v == w * PowSigned(9 * k)
    ensures Related(v, w)
  {
  }

  lemma RelatedRefl(v: real)
    ensures Related(v, v)
  {
    assert PowSigned(0) == 1.0;
    RelatedBy(v, v, 0);
  }

  lemma Regroup(a: real, p: real, b: real, q: real)
    ensures (a * p) * (b * q) == (a * b) * (p * q)
  {
    assert (a * p) * (b * q) == a * (p * (b * q));
    assert p * (b * q) == b * (p * q);
  }

  lemma RelatedProduct(v: real, w: real, v': real, w': real)
    requires Related(v, w) && Related(v', w')
    ensures Related(v * v', w * w')
  {
    hide PowSigned;
    if v == 0.0 || v' == 0.0 {
      assert v * v' == 0.0;
    } else if w == 0.0 || w' == 0.0 {
      assert w * w' == 0.0;
    } else {
      var j: int :| v == w * PowSigned(9 * j);
      var k: int :| v' == w' * PowSigned(9 * k);
      PowSignedAdd(9 * j, 9 * k);
      Regroup(w, PowSigned(9 * j), w', PowSigned(9 * k));
      RelatedBy(v * v', w * w', j + k);
    }
  }

  /** The reciprocal of w p, when q is the reciprocal of p. */
  lemma Reciprocal(v: real, w: real, p: real, q: real)
    requires v == w * p && p * q == 1.0 && v != 0.0 && w != 0.0
    ensures 1.0 / v == (1.0 / w) * q
  {
    var b := 1.0 / w;
    Regroup(b, q, w, p);
    assert b * w == 1.0 && q * p == 1.0;
    assert (b * q) * v == 1.0;
    DivideOut(b * q, v);
  }

  lemma DivideOut(x: real, v: real)
    requires x * v == 1.0 && v != 0.0
    ensures 1.0 / v == x
  {
  }

  lemma RelatedInverse(v: real, w: real)
    requires Related(v, w) && v != 0.0 && w != 0.0
    ensures Related(1.0 / v, 1.0 / w)
  {
    PowZero();
    hide PowSigned;
    var k: int :| v == w * PowSigned(9 * k);
    PowSignedAdd(9 * k, 9 * -k);
    Reciprocal(v, w, PowSigned(9 * k), PowSigned(9 * -k));
    RelatedBy(1.0 / v, 1.0 / w, -k);
  }

  lemma PowZero()
    ensures PowSigned(0) == 1.0
  {
  }

  lemma RelatedQuotient(v: real, w: real, v': real, w': real)
    requires Related(v, w) && Related(v', w') && v' != 0.0 && w' != 0.0
    ensures Related(v / v', w / w')
  {
    hide Related;
    RelatedInverse(v', w');
    DivIsMul(v, v');
    DivIsMul(w, w');
    RelatedTimes(v, w, 1.0 / v', 1.0 / w', v / v', w / w');
  }

  lemma RelatedTimes(v: real, w: real, p: real, q: real, a: real, b: real)
    requires Related(v, w) && Related(p, q) && a == v * p && b == w * q
    ensures Related(a, b)
  {
    RelatedProduct(v, w, p, q);
  }

  lemma ExponentZero(k: int)
    requires k == 0
    ensures PowSigned(9 * k) == 1.0
  {
  }

  lemma Outgrows(v: real, w: real, p: real)
    requires v == w * p && 1000000000.0 <= p && 0.5 <= w
    ensures v > 20000.0
  {
    assert (w - 0.5) * p >= 0.0;
  }

  /** Within a range narrower than 10^9, related numbers are equal. */
  lemma RelatedInRange(v: real, w: real)
    requires Related(v, w) && 0.5 <= v <= 20000.0 && 0.5 <= w <= 20000.0
    ensures v == w
  {
    var k: int :| v == w * PowSigned(9 * k);
    hide PowSigned;
    if k >= 1 {
      AtLeastGiga(k);
      Outgrows(v, w, PowSigned(9 * k));
    } else if k <= -1 {
      AtLeastGiga(-k);
      PowSignedAdd(9 * k, 9 * -k);
      PowZero();
      Cancels(w, PowSigned(9 * k), PowSigned(9 * -k));
      Outgrows(w, v, PowSigned(9 * -k));
    } else {
      ExponentZero(k);
    }
  }

  lemma Cancels(w: real, p: real, q: real)
    requires p * q == 1.0
    ensures (w * p) * q == w
  {
    assert (w * p) * q == w * (p * q);
  }

  lemma {:induction false} AtLeastGiga(k: nat)
    requires 1 <= k
    ensures PowSigned(9 * k) >= 1000000000.0
  {
    Pow10Add(9, 9 * (k - 1));
    assert Pow10(9) == 1000000000.0 by {
      assert Pow10(5) == 100000.0;
    }
    AtLeastOne(9 * (k - 1));
  }

  lemma {:induction false} AtLeastOne(k: nat)
    ensures Pow10(k) >= 1.0
  {
    if k > 0 { AtLeastOne(k - 1); }
  }

  lemma {:induction false} StripMod9(ds: seq<Digit>) returns (k: int)
    ensures Whole(ds) - Whole(StripZeros(ds)) == 9 * k
  {
    k := 0;
    if ds != [] && ds[|ds| - 1] == 0 {
      var j := StripMod9(ds[..|ds| - 1]);
      k := j + Whole(ds[..|ds| - 1]);
    }
  }

  lemma ScaleIs(e: Exponent)
    requires e.Exponent?
    ensures Scale(e) == PowSigned(if e.sign == "-" then -(Whole(e.digits) as int) else Whole(e.digits))
  {
    if Whole(e.digits) == 0 { assert Pow10(0) == 1.0; }
  }

  /** Two tokens the generator cannot tell apart denote related numbers. */
  lemma SameCanonRelated(n: Numeral, m: Numeral)
    requires IsToken(n) && IsToken(m) && Canon(n) == Canon(m)
    ensures Related(Value(n), Value(m))
  {
    hide Related, Scale, PowSigned, Pow10, Fraction, Whole;
    if Canon(n).exp.NoExponent? {
      CanonExactIff(n);
      CanonExactIff(m);
      RelatedRefl(Value(n));
    } else {
      var a, b := Whole(n.exp.digits), Whole(m.exp.digits);
      var ka := StripMod9(n.exp.digits);
      var kb := StripMod9(m.exp.digits);
      ScaleIs(n.exp);
      ScaleIs(m.exp);
      var j := if n.exp.sign == "-" then kb - ka else ka - kb;
      PowSignedAdd(if n.exp.sign == "-" then -(b as int) else b, 9 * j);
      SameScaleProduct(Sign(n.sign), Mantissa(n), Scale(m.exp), PowSigned(9 * j));
      RelatedBy(Value(n), Value(m), j);
    }
  }

  lemma SameScaleProduct(s: real, m: real, a: real, p: real)
    ensures s * (m * (a * p)) == (s * (m * a)) * p
  {
  }
}

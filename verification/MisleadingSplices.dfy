/** Where a pass's size is rounded: two passes to splice around it that the generator misleads, and
    with them the exact condition under which rounding can contradict the analysis. */
module MisleadingSplices {
  import opened Numerals
  import opened DimensionAnalysis
  import opened DimensionSoundness
  import opened SplicedPasses
  import opened Wrappers

  // ---- a factor that tells a number from its rounding -----------------------------------------------

  function DigitsOf(m: nat): seq<Digit> { if m < 10 then [m] else DigitsOf(m / 10) + [m % 10] }

  function Natural(m: nat): Numeral { Numeral("", DigitsOf(m), false, [], NoExponent) }

  lemma {:induction false} DigitsDenote(m: nat)
    ensures Whole(DigitsOf(m)) == m && DigitsOf(m) != []
  {
    if m < 10 {
      assert [m as Digit][..0] == [];
    } else {
      DigitsDenote(m / 10);
      assert DigitsOf(m)[..|DigitsOf(m)| - 1] == DigitsOf(m / 10);
    }
  }

  lemma NaturalIs(m: nat)
    ensures Value(Natural(m)) == m as real && IsToken(Natural(m)) && Canon(Natural(m)) == Natural(m)
  {
    DigitsDenote(m);
  }

  function ScaledBy(v: real, m: nat, n: nat): real
    requires n > 0
  {
    v * m as real / n as real
  }

  /** m / n sends lo below 3/2 and hi to 3/2 or above. */
  lemma Between(lo: real, hi: real) returns (m: nat, n: nat)
    requires 0.0 < lo < hi
    ensures n > 0 && lo * m as real < 1.5 * n as real <= hi * m as real
  {
    var gap := lo * hi / (hi - lo);
    GapPositive(lo * hi, hi - lo);
    n := gap.Floor + 1;
    GapTimes(lo, hi, gap, n as real);
    var x := 1.5 * n as real / hi;
    assert x * hi == 1.5 * n as real;
    m := -(-x).Floor;
    BetweenStep(lo, hi, n as real, x, m as real);
  }

  lemma GapPositive(a: real, b: real)
    requires 0.0 <= a && 0.0 < b
    ensures 0.0 <= a / b
  {
  }

  lemma GapTimes(lo: real, hi: real, gap: real, n: real)
    requires 0.0 < lo < hi && gap == lo * hi / (hi - lo) && gap < n
    ensures lo * hi < n * (hi - lo)
  {
    assert gap * (hi - lo) == lo * hi;
    assert (n - gap) * (hi - lo) > 0.0;
  }

  lemma BetweenStep(lo: real, hi: real, n: real, x: real, m: real)
    requires 0.0 < lo < hi && 0.0 < n && lo * hi < n * (hi - lo) && x * hi == 1.5 * n && x <= m < x + 1.0
    ensures lo * m < 1.5 * n <= hi * m
  {
    MulMono(hi, x, m);
    MulMono(lo, m, x + 1.0);
    var t := lo * x + lo;
    assert t == lo * (x + 1.0);
    assert lo * (x * hi) + lo * hi == t * hi;
    assert lo * (1.5 * n) + lo * hi < (1.5 * n) * hi by {
      assert (0.5 * n) * (hi - lo) > 0.0;
    }
    CancelLess(t, 1.5 * n, hi);
  }

  lemma MulMono(a: real, x: real, y: real)
    requires 0.0 < a && x <= y
    ensures a * x <= a * y
    ensures x < y ==> a * x < a * y
  {
    assert a * (y - x) >= 0.0;
  }

  lemma CancelLess(a: real, b: real, c: real)
    requires a * c < b * c && 0.0 < c
    ensures a < b
  {
    assert a >= b ==> a * c >= b * c;
  }

  /** m / n tells v from its rounded value: one is scaled to a size of 1, the other to 2 or 3. */
  ghost predicate TellsApart(v: real, m: nat, n: nat) {
    && n > 0
    && 1 <= LlRound(ScaledBy(v, m, n)) <= 3 && 1 <= LlRound(ScaledBy(LlRound(v) as real, m, n)) <= 3
    && LlRound(ScaledBy(v, m, n)) != LlRound(ScaledBy(LlRound(v) as real, m, n))
  }

  lemma SizesOneAndMore(lo: real, hi: real, m: nat, n: nat)
    requires 0.0 < lo < hi <= 2.0 * lo && n > 0 && lo * m as real < 1.5 * n as real <= hi * m as real
    ensures LlRound(ScaledBy(lo, m, n)) == 1 && 2 <= LlRound(ScaledBy(hi, m, n)) <= 3
  {
    var p, q, w := lo * m as real, hi * m as real, n as real;
    assert 0.0 <= m as real;
    assert (2.0 * lo - hi) * m as real >= 0.0;
    assert q <= 2.0 * p;
    QuotientWithin(p, w, 0.75, 1.5);
    QuotientWithin(q, w, 1.5, 3.0);
    RoundsToOne(ScaledBy(lo, m, n));
    RoundsToMore(ScaledBy(hi, m, n));
  }

  lemma QuotientWithin(p: real, w: real, a: real, b: real)
    requires 0.0 < w && a * w <= p < b * w
    ensures a <= p / w < b
  {
    var x := p / w;
    assert x * w == p;
    assert x < a ==> x * w < a * w;
    assert x >= b ==> x * w >= b * w;
  }

  lemma RoundsToOne(x: real)
    requires 0.75 <= x < 1.5
    ensures LlRound(x) == 1
  {
    FloorIs(x + 0.5, 1);
  }

  lemma RoundsToMore(x: real)
    requires 1.5 <= x < 3.0
    ensures 2 <= LlRound(x) <= 3
  {
    FloorIs(x + 0.5, if x < 2.5 then 2 else 3);
  }

  lemma Telling(v: real) returns (m: nat, n: nat)
    requires 0 < LlRound(v) && !IsWhole(v)
    ensures TellsApart(v, m, n)
  {
    var r := LlRound(v) as real;
    RoundedNear(v);
    var lo, hi := if v < r then v else r, if v < r then r else v;
    m, n := Between(lo, hi);
    SizesOneAndMore(lo, hi, m, n);
  }

  lemma RoundedNear(v: real)
    requires 0 < LlRound(v) && !IsWhole(v)
    ensures var r := LlRound(v) as real; 0.5 <= v && 1.0 <= r && v != r && v - r <= 0.5 && r - v <= 0.5
  {
  }

  // ---- the two passes -----------------------------------------------------------------------------------

  function ScaledTokens(tokens: seq<Token>, m: nat, n: nat): seq<Token> {
    tokens + [Num(Natural(m)), Op(Times), Num(Natural(n)), Op(Over)]
  }

  function ScaledSym(e: Sym, m: nat, n: nat): Sym {
    Combine(Over, Combine(Times, e, Constant(Natural(m))), Constant(Natural(n)))
  }

  function TokensOn(p: Pass, a: Axis): seq<Token> { if a.W? then p.width else p.height }

  /** The expression on one axis, 1 on the other. */
  function Only(a: Axis, axis: Axis, tokens: seq<Token>): seq<Token> {
    if a == axis then tokens else [Num(Natural(1))]
  }

  /** Saves p's own size on one axis, scaled, under the name y. */
  function Probe(p: Pass, a: Axis, m: nat, n: nat, y: string): Pass {
    Pass(p.hook, p.bindings, Some(y),
         Only(a, W, ScaledTokens(p.width, m, n)), Only(a, H, ScaledTokens(p.height, m, n)), {}, {}, {})
  }

  /** Takes its size from p's texture, scaled alike, and reads y. */
  function Reader(p: Pass, a: Axis, m: nat, n: nat, y: string, z: string, extra: seq<string>): Pass {
    var x := Destination(p);
    Pass(p.hook, [x, y] + extra, Some(z),
         Only(a, W, ScaledTokens([Size(x, W)], m, n)), Only(a, H, ScaledTokens([Size(x, H)], m, n)), {y}, {y}, {})
  }

  lemma {:induction false} RunAppend(stack: seq<real>, s: seq<Token>, t: seq<Token>, sizes: RealSizes, env: Env)
    requires Run(stack, s, sizes, env).Some?
    ensures Run(stack, s + t, sizes, env) == Run(Run(stack, s, sizes, env).value, t, sizes, env)
    decreases |s|
  {
    hide RunStep;
    if s == [] {
      assert s + t == t;
    } else {
      assert (s + t)[0] == s[0] && (s + t)[1..] == s[1..] + t;
      RunAppend(RunStep(stack, s[0], sizes, env).value, s[1..], t, sizes, env);
    }
  }

  lemma {:induction false} SymAppend(stack: seq<Sym>, s: seq<Token>, t: seq<Token>, axis: Axis, dims: SymDims)
    requires SymRun(stack, s, axis, dims).Some?
    ensures SymRun(stack, s + t, axis, dims) == SymRun(SymRun(stack, s, axis, dims).value, t, axis, dims)
    decreases |s|
  {
    hide SymStep;
    if s == [] {
      assert s + t == t;
    } else {
      assert (s + t)[0] == s[0] && (s + t)[1..] == s[1..] + t;
      SymAppend(SymStep(stack, s[0], axis, dims).value, s[1..], t, axis, dims);
    }
  }

  lemma RunOne(stack: seq<real>, t: Token, sizes: RealSizes, env: Env)
    ensures Run(stack, [t], sizes, env) == RunStep(stack, t, sizes, env)
  {
    hide RunStep;
    if RunStep(stack, t, sizes, env).Some? {
      assert [t][1..] == [];
    }
  }

  lemma SymOne(stack: seq<Sym>, t: Token, axis: Axis, dims: SymDims)
    ensures SymRun(stack, [t], axis, dims) == SymStep(stack, t, axis, dims)
  {
    hide SymStep;
    if SymStep(stack, t, axis, dims).Some? {
      assert [t][1..] == [];
    }
  }

  /** A number and an operator on top of a one-element stack. */
  lemma RunWith(x: real, m: nat, op: Operator, sizes: RealSizes, env: Env)
    requires Apply(op, x, m as real).Some?
    ensures Run([x], [Num(Natural(m)), Op(op)], sizes, env) == Some([Apply(op, x, m as real).value])
  {
    NaturalIs(m);
    hide Value, Natural, Apply;
    var two, v := [x, m as real], Apply(op, x, m as real).value;
    assert [x] + [m as real] == two && two[..0] + [v] == [v];
    assert [Num(Natural(m)), Op(op)][1..] == [Op(op)];
    RunOne(two, Op(op), sizes, env);
  }

  lemma SymWith(e: Sym, m: nat, op: Operator, axis: Axis, dims: SymDims)
    ensures SymRun([e], [Num(Natural(m)), Op(op)], axis, dims) == Some([Combine(op, e, Constant(Natural(m)))])
  {
    NaturalIs(m);
    hide Natural, Combine, Canon;
    var two, v := [e, Constant(Natural(m))], Combine(op, e, Constant(Natural(m)));
    assert [e] + [Constant(Natural(m))] == two && two[..0] + [v] == [v];
    assert [Num(Natural(m)), Op(op)][1..] == [Op(op)];
    SymOne(two, Op(op), axis, dims);
  }

  lemma ScaledValue(tokens: seq<Token>, m: nat, n: nat, sizes: Sizes, env: Env)
    requires n > 0 && EvaluateRpn(tokens, sizes, env).Some?
    ensures EvaluateRpn(ScaledTokens(tokens, m, n), sizes, env).Some?
    ensures EvaluateRpn(ScaledTokens(tokens, m, n), sizes, env).value
            == ScaledBy(EvaluateRpn(tokens, sizes, env).value, m, n)
  {
    hide Natural;
    var v, real_ := EvaluateRpn(tokens, sizes, env).value, Reals(sizes);
    var p := Apply(Times, v, m as real).value;
    assert p == v * m as real;
    var q := Apply(Over, p, n as real).value;
    assert q == ScaledBy(v, m, n);
    var s, t := [Num(Natural(m)), Op(Times)], [Num(Natural(n)), Op(Over)];
    assert ScaledTokens(tokens, m, n) == tokens + (s + t);
    hide Run, Apply;
    RunAppend([], tokens, s + t, real_, env);
    assert Run([], tokens, real_, env).value == [v];
    RunWith(v, m, Times, real_, env);
    RunAppend([v], s, t, real_, env);
    RunWith(p, n, Over, real_, env);
  }

  lemma ScaledSymbol(tokens: seq<Token>, m: nat, n: nat, axis: Axis, dims: SymDims)
    requires SymEval(tokens, axis, dims).Some?
    ensures SymEval(ScaledTokens(tokens, m, n), axis, dims) == Some(ScaledSym(SymEval(tokens, axis, dims).value, m, n))
  {
    hide Natural, SymRun, Combine;
    var e := SymEval(tokens, axis, dims).value;
    var s, t := [Num(Natural(m)), Op(Times)], [Num(Natural(n)), Op(Over)];
    assert ScaledTokens(tokens, m, n) == tokens + (s + t);
    SymAppend([], tokens, s + t, axis, dims);
    assert SymRun([], tokens, axis, dims).value == [e];
    SymWith(e, m, Times, axis, dims);
    SymAppend([e], s, t, axis, dims);
    SymWith(Combine(Times, e, Constant(Natural(m))), n, Over, axis, dims);
  }

  lemma OneIsRead(axis: Axis, dims: SymDims, sizes: Sizes, env: Env)
    ensures EvaluateRpn([Num(Natural(1))], sizes, env) == Some(1.0) && LlRound(1.0) == 1
    ensures SymEval([Num(Natural(1))], axis, dims) == Some(Constant(Natural(1)))
  {
    NaturalIs(1);
    RoundsToOne(1.0);
    hide Natural, Value, Canon;
    RunOne([], Num(Natural(1)), Reals(sizes), env);
    SymOne([], Num(Natural(1)), axis, dims);
    assert [] + [1.0] == [1.0] && [] + [Constant(Natural(1))] == [Constant(Natural(1))];
  }

  lemma SizeIsRead(x: string, axis: Axis, dims: SymDims, sizes: Sizes, env: Env)
    requires x != "OUTPUT" && x in dims && x in sizes
    ensures EvaluateRpn([Size(x, axis)], sizes, env) == Some(sizes[x].On(axis) as real)
    ensures SymEval([Size(x, axis)], axis, dims) == Some(dims[x].On(axis))
  {
    RunOne([], Size(x, axis), Reals(sizes), env);
    SymOne([], Size(x, axis), axis, dims);
    assert [] + [sizes[x].On(axis) as real] == [sizes[x].On(axis) as real] && [] + [dims[x].On(axis)] == [dims[x].On(axis)];
  }

  function OnlyDims(a: Axis, e: Sym): Pair<Sym> {
    if a.W? then Pair(e, Constant(Natural(1))) else Pair(Constant(Natural(1)), e)
  }

  function OnlySize(a: Axis, size: int): Pair<int> { if a.W? then Pair(size, 1) else Pair(1, size) }

  /** A pass whose size is scaled on one axis and 1 on the other. */
  lemma OnlyOutput(q: Pass, a: Axis, tokens: seq<Token>, m: nat, n: nat, dims: SymDims, sizes: Sizes, env: Env)
    requires TokensOn(q, a) == ScaledTokens(tokens, m, n)
    requires TokensOn(q, if a.W? then H else W) == [Num(Natural(1))]
    requires n > 0 && SymEval(tokens, a, dims).Some? && EvaluateRpn(tokens, sizes, env).Some?
    requires 1 <= LlRound(ScaledBy(EvaluateRpn(tokens, sizes, env).value, m, n)) <= 3
    ensures OutputDims(q, dims) == Some(OnlyDims(a, ScaledSym(SymEval(tokens, a, dims).value, m, n)))
    ensures OutputSize(q, sizes, env)
            == Some(OnlySize(a, LlRound(ScaledBy(EvaluateRpn(tokens, sizes, env).value, m, n))))
  {
    ScaledValue(tokens, m, n, sizes, env);
    ScaledSymbol(tokens, m, n, a, dims);
    OneIsRead(if a.W? then H else W, dims, sizes, env);
    hide SymEval, EvaluateRpn, LlRound, ScaledBy, ScaledSym, ScaledTokens, Natural;
  }

  function ValueOn(p: Pass, a: Axis, sizes: Sizes, env: Env): real
    requires OutputSize(p, sizes, env).Some?
  {
    EvaluateRpn(TokensOn(p, a), sizes, env).value
  }

  lemma ProbeIsReady(p: Pass, a: Axis, m: nat, n: nat, y: string, dims: SymDims, sizes: Sizes, env: Env)
    requires Ready(p, dims, sizes, env) && TellsApart(ValueOn(p, a, sizes, env), m, n)
    ensures var q := Probe(p, a, m, n, y);
      && Ready(q, dims, sizes, env)
      && OutputDims(q, dims) == Some(OnlyDims(a, ScaledSym(OutputDims(p, dims).value.On(a), m, n)))
      && OutputSize(q, sizes, env) == Some(OnlySize(a, LlRound(ScaledBy(ValueOn(p, a, sizes, env), m, n))))
  {
    hide SymEval, EvaluateRpn, LlRound, ScaledBy, ScaledSym, ScaledTokens, Natural;
    OnlyOutput(Probe(p, a, m, n, y), a, TokensOn(p, a), m, n, dims, sizes, env);
  }

  lemma ReaderIsReady(p: Pass, a: Axis, m: nat, n: nat, y: string, z: string, extra: seq<string>,
                      dims: SymDims, sizes: Sizes, env: Env)
    requires n > 0 && Destination(p) != "OUTPUT" && |extra| <= 2
    requires forall b :: b in [Destination(p), y] + extra ==> b in dims && b in sizes
    requires 1 <= LlRound(ScaledBy(sizes[Destination(p)].On(a) as real, m, n)) <= 3
    ensures var q, x := Reader(p, a, m, n, y, z, extra), Destination(p);
      && Ready(q, dims, sizes, env)
      && OutputDims(q, dims) == Some(OnlyDims(a, ScaledSym(dims[x].On(a), m, n)))
      && OutputSize(q, sizes, env) == Some(OnlySize(a, LlRound(ScaledBy(sizes[x].On(a) as real, m, n))))
  {
    var q, x := Reader(p, a, m, n, y, z, extra), Destination(p);
    assert x in [x, y] + extra && y in [x, y] + extra;
    SizeIsRead(x, a, dims, sizes, env);
    hide SymEval, EvaluateRpn, LlRound, ScaledBy, ScaledSym, ScaledTokens, Natural;
    OnlyOutput(q, a, [Size(x, a)], m, n, dims, sizes, env);
    assert Bound(q, y) == Some(y);
  }

  /** If y has the reader's symbolic size and not its size, the reader is misled. */
  lemma ReaderIsMisled(p: Pass, a: Axis, m: nat, n: nat, y: string, z: string, extra: seq<string>, dims: SymDims,
                       ran: Ran)
    requires var q := Reader(p, a, m, n, y, z, extra);
      y in dims && OutputDims(q, dims) == Some(dims[y]) && y in ran.sizes && ran.sizes[y] != ran.output
    ensures var q := Reader(p, a, m, n, y, z, extra); MisledBy(q, PlanFor(q, dims), ran, y)
  {
    hide OutputDims, ScaledTokens;
    var q := Reader(p, a, m, n, y, z, extra);
    assert y in q.bindings && Bound(q, y) == Some(y);
    assert y in PlanFor(q, dims).texOffLoads;
  }

  // ---- spliced around the pass that rounds ----------------------------------------------------------

  ghost predicate Fresh(name: string, p: Pass, dims: SymDims, sizes: Sizes) {
    !Mentions(p, name) && name !in dims && name !in sizes
  }

  /** What p finds is still there after the probe. */
  lemma ProbeKeeps(p: Pass, later: seq<Pass>, q: Pass, r: Pass, size: Pair<int>, original: Sizes, sizes: Sizes, result: string)
    requires Extends(original, sizes) && Destination(q) !in original && Destination(q) in r.bindings
    requires forall s :: s in original ==> s in Retained([p] + later, result) || s in r.bindings
    ensures var after := Kept(sizes, q, size, [p, r] + later, result);
      Extends(original, after) && Destination(q) in after && after[Destination(q)] == size
  {
    var rest := [p, r] + later;
    assert r in rest;
    forall s | s in Retained([p] + later, result) || s in r.bindings ensures s in Retained(rest, result) {
      if s in Retained([p] + later, result) && s != result && s != "LUMA" {
        var u: Pass, b: string :| u in [p] + later && b in u.bindings && b == s;
        assert u in rest;
      }
    }
    hide Retained;
  }

  /** What p leaves, the list's later passes still find after the reader. */
  lemma ReaderKeeps(p: Pass, later: seq<Pass>, r: Pass, size: Pair<int>, size': Pair<int>, original: Sizes, sizes: Sizes,
                    result: string)
    requires Extends(original, sizes) && Destination(r) !in original && Destination(r) != Destination(p)
    ensures Extends(Kept(original, p, size, later, result),
                    Kept(Kept(sizes, p, size, [r] + later, result), r, size', later, result))
  {
    forall s | s in Retained(later, result) ensures s in Retained([r] + later, result) {
      if s != result && s != "LUMA" {
        var u: Pass, b: string :| u in later && b in u.bindings && b == s;
        assert u in [r] + later;
      }
    }
    hide Retained;
  }

  lemma ReadyGrows(p: Pass, a: SymDims, b: SymDims, s: Sizes, t: Sizes, env: Env)
    requires Ready(p, a, s, env) && Extends(a, b) && Extends(s, t)
    ensures Ready(p, b, t, env)
    ensures OutputDims(p, b) == OutputDims(p, a) && OutputSize(p, t, env) == OutputSize(p, s, env)
    ensures forall axis :: ValueOn(p, axis, t, env) == ValueOn(p, axis, s, env)
  {
    AcceptedGrows(p, a, b);
    OutputGrows(p, s, t, env);
    hide PassAccepted, EvaluateRpn, LlRound;
  }

  /** The reader finds p's texture and the probe's, their symbolic sizes scaled alike and their sizes not. */
  lemma ReaderFinds(p: Pass, later: seq<Pass>, a: Axis, m: nat, n: nat, y: string, z: string, extra: seq<string>,
                    dims: SymDims, probed: SymDims, original: Sizes, sizes: Sizes, result: string, env: Env)
    requires Ready(p, dims, original, env) && Destination(p) != "OUTPUT"
    requires Extends(dims, probed) && Extends(original, sizes)
    requires TellsApart(ValueOn(p, a, original, env), m, n) && |extra| <= 2
    requires forall b :: b in extra ==> b in dims && b in original
    requires y in probed && probed[y] == OnlyDims(a, ScaledSym(OutputDims(p, dims).value.On(a), m, n))
    requires y in sizes && sizes[y] == OnlySize(a, LlRound(ScaledBy(ValueOn(p, a, original, env), m, n)))
    requires y != Destination(p)
    ensures var r := Reader(p, a, m, n, y, z, extra);
      && Ready(p, probed, sizes, env)
      && OutputSize(p, sizes, env) == OutputSize(p, original, env) && OutputDims(p, probed) == OutputDims(p, dims)
      && (var d, s := DimsAfter(p, probed), SizesAfter(p, [r] + later, sizes, result, env);
          && Ready(r, d, s, env) && OutputDims(r, d) == Some(d[y])
          && MisledBy(r, PlanFor(r, d), Ran(s, OutputSize(r, s, env).value), y))
  {
    hide Ready, OutputDims, ScaledSym, ScaledBy, Reads, MisledBy, PlanFor, Retained, EvaluateRpn, LlRound;
    ReadyGrows(p, dims, probed, original, sizes, env);
    var r, x := Reader(p, a, m, n, y, z, extra), Destination(p);
    ReadyHas(p, probed, sizes, env);
    var d, s := DimsAfter(p, probed), SizesAfter(p, [r] + later, sizes, result, env);
    RetainsBindings(r, later, result);
    assert r.bindings == [x, y] + extra;
    assert s[x].On(a) == LlRound(ValueOn(p, a, original, env));
    ReaderIsReady(p, a, m, n, y, z, extra, d, s, env);
    ReaderIsMisled(p, a, m, n, y, z, extra, d, Ran(s, OutputSize(r, s, env).value));
  }

  lemma ReadyHas(p: Pass, dims: SymDims, sizes: Sizes, env: Env)
    requires Ready(p, dims, sizes, env)
    ensures OutputDims(p, dims).Some? && OutputSize(p, sizes, env).Some?
  {
  }

  lemma RetainsBindings(r: Pass, later: seq<Pass>, result: string)
    ensures forall b :: b in r.bindings ==> b in Retained([r] + later, result)
  {
    assert r in [r] + later;
  }

  lemma SavedDims(p: Pass, r: Pass, out: Pair<Sym>, out': Pair<Sym>, dims: SymDims, probed: SymDims)
    requires Extends(dims, probed) && Destination(r) !in dims && Destination(r) != Destination(p)
    ensures Extends(dims[Destination(p) := out], probed[Destination(p) := out][Destination(r) := out'])
  {
  }

  /** The rest of the list is still planned and still runs after the reader. */
  lemma LaterStillRuns(p: Pass, later: seq<Pass>, r: Pass, dims: SymDims, probed: SymDims, original: Sizes, sizes: Sizes,
                       result: string, env: Env)
    requires Ready(p, dims, original, env) && Extends(dims, probed) && Extends(original, sizes)
    requires Ready(p, probed, sizes, env) && OutputDims(p, probed) == OutputDims(p, dims)
    requires OutputSize(p, sizes, env) == OutputSize(p, original, env)
    requires Fresh(Destination(r), p, dims, original)
    requires Ready(r, DimsAfter(p, probed), SizesAfter(p, [r] + later, sizes, result, env), env)
    requires PlansFrom(later, DimsAfter(p, dims)).Some?
    requires RunPasses(later, SizesAfter(p, later, original, result, env), result, env).Some?
    ensures PlansFrom(later, DimsAfter(r, DimsAfter(p, probed))).Some?
    ensures RunPasses(later, SizesAfter(r, later, SizesAfter(p, [r] + later, sizes, result, env), result, env), result, env).Some?
  {
    hide OutputDims, OutputSize, Kept, Retained, Reads, Ready, PlansFrom, RunPasses, Extends;
    ReadyHas(p, probed, sizes, env);
    ReadyHas(r, DimsAfter(p, probed), SizesAfter(p, [r] + later, sizes, result, env), env);
    var d2, s2 := DimsAfter(p, probed), SizesAfter(p, [r] + later, sizes, result, env);
    SavedDims(p, r, OutputDims(p, dims).value, OutputDims(r, d2).value, dims, probed);
    ReaderKeeps(p, later, r, OutputSize(p, original, env).value, OutputSize(r, s2, env).value, original, sizes, result);
    hide Fresh;
    PlansGrow(later, DimsAfter(p, dims), DimsAfter(r, d2));
    PassesGrow(later, SizesAfter(p, later, original, result, env), SizesAfter(r, later, s2, result, env), result, env);
  }

  lemma MisledThird(q: Pass, p: Pass, r: Pass, later: seq<Pass>, name: string, dims: SymDims, sizes: Sizes,
                    result: string, env: Env)
    requires Ready(q, dims, sizes, env)
    requires Ready(p, DimsAfter(q, dims), SizesAfter(q, [p, r] + later, sizes, result, env), env)
    requires var d, s := DimsAfter(p, DimsAfter(q, dims)),
               SizesAfter(p, [r] + later, SizesAfter(q, [p, r] + later, sizes, result, env), result, env);
      && Ready(r, d, s, env) && MisledBy(r, PlanFor(r, d), Ran(s, OutputSize(r, s, env).value), name)
      && PlansFrom(later, DimsAfter(r, d)).Some?
      && RunPasses(later, SizesAfter(r, later, s, result, env), result, env).Some?
    ensures Misled([q, p, r] + later, 2, name, dims, sizes, result, env)
  {
    ThreeAhead(q, p, r, later);
    ReadyHas(q, dims, sizes, env);
    var d1, s1 := DimsAfter(q, dims), SizesAfter(q, [p, r] + later, sizes, result, env);
    ReadyHas(p, d1, s1, env);
    hide Ready, OutputDims, OutputSize, Misled, MisledBy, PlanFor, DimsAfter, SizesAfter, PlansFrom, RunPasses;
    var d2, s2 := DimsAfter(p, d1), SizesAfter(p, [r] + later, s1, result, env);
    MisledHere([r] + later, name, d2, s2, result, env);
    MisledLater([p, r] + later, 1, name, d1, s1, result, env);
    MisledLater([q, p, r] + later, 2, name, dims, sizes, result, env);
  }

  /** The state after the probe. */
  lemma AfterProbe(p: Pass, later: seq<Pass>, a: Axis, m: nat, n: nat, y: string, r: Pass, dims: SymDims,
                   original: Sizes, sizes: Sizes, result: string, env: Env)
    requires Ready(p, dims, original, env) && Extends(original, sizes) && TellsApart(ValueOn(p, a, original, env), m, n)
    requires Fresh(y, p, dims, original) && y in r.bindings
    requires forall s :: s in original ==> s in Retained([p] + later, result) || s in r.bindings
    ensures var q := Probe(p, a, m, n, y);
      && Ready(q, dims, sizes, env)
      && (var d, s := DimsAfter(q, dims), SizesAfter(q, [p, r] + later, sizes, result, env);
          && Extends(dims, d) && Extends(original, s) && y in d && y in s
          && d[y] == OnlyDims(a, ScaledSym(OutputDims(p, dims).value.On(a), m, n))
          && s[y] == OnlySize(a, LlRound(ScaledBy(ValueOn(p, a, original, env), m, n))))
  {
    var q := Probe(p, a, m, n, y);
    assert Destination(q) == y;
    hide Ready, OutputDims, OutputSize, Kept, Retained, Reads, ScaledSym, ScaledBy, LlRound, Probe, TellsApart;
    ReadyGrows(p, dims, dims, original, sizes, env);
    ProbeIsReady(p, a, m, n, y, dims, sizes, env);
    ProbeKeeps(p, later, q, r, OutputSize(q, sizes, env).value, original, sizes, result);
  }

  /** Probe, the rounding pass, reader: the reader is misled. */
  lemma SpliceMisleads(p: Pass, later: seq<Pass>, a: Axis, m: nat, n: nat, y: string, z: string, extra: seq<string>,
                       dims: SymDims, original: Sizes, sizes: Sizes, result: string, env: Env)
    requires Ready(p, dims, original, env) && Destination(p) != "OUTPUT" && Extends(original, sizes)
    requires TellsApart(ValueOn(p, a, original, env), m, n) && |extra| <= 2
    requires forall b :: b in extra ==> b in dims && b in original
    requires forall s :: s in original ==> s in Retained([p] + later, result) || s in [Destination(p), y] + extra
    requires Fresh(y, p, dims, original) && Fresh(z, p, dims, original)
    requires PlansFrom(later, DimsAfter(p, dims)).Some?
    requires RunPasses(later, SizesAfter(p, later, original, result, env), result, env).Some?
    ensures Misled([Probe(p, a, m, n, y), p, Reader(p, a, m, n, y, z, extra)] + later, 2, y, dims, sizes, result, env)
  {
    var q, r := Probe(p, a, m, n, y), Reader(p, a, m, n, y, z, extra);
    assert Destination(q) == y && Destination(r) == z && r.bindings == [Destination(p), y] + extra;
    assert y != Destination(p) && y in r.bindings;
    hide Probe, Reader, Ready, OutputDims, OutputSize, Retained, Kept, Fresh, MisledBy, Misled, PlanFor, PlansFrom, RunPasses;
    hide ScaledSym, ScaledBy, LlRound, TellsApart, Extends;
    AfterProbe(p, later, a, m, n, y, r, dims, original, sizes, result, env);
    ReadyHas(q, dims, sizes, env);
    var d1, s1 := DimsAfter(q, dims), SizesAfter(q, [p, r] + later, sizes, result, env);
    hide DimsAfter, SizesAfter;
    ReaderFinds(p, later, a, m, n, y, z, extra, dims, d1, original, s1, result, env);
    LaterStillRuns(p, later, r, dims, d1, original, s1, result, env);
    MisledThird(q, p, r, later, y, dims, sizes, result, env);
  }

  // ---- the first pass that rounds -----------------------------------------------------------------------

  /** Where the list itself, run on these sizes, gives its k-th pass a size that had to be rounded. */
  ghost predicate RoundsAt(passes: seq<Pass>, k: nat, a: Axis, sizes: Sizes, result: string, env: Env)
    requires RunPasses(passes, sizes, result, env).Some? && k < |passes|
  {
    var p := passes[0];
    if k == 0 then Destination(p) != "OUTPUT" && !IsWhole(ValueOn(p, a, sizes, env))
    else RoundsAt(passes[1..], k - 1, a, SizesAfter(p, passes[1..], sizes, result, env), result, env)
  }

  function ValueAt(passes: seq<Pass>, k: nat, a: Axis, sizes: Sizes, result: string, env: Env): real
    requires RunPasses(passes, sizes, result, env).Some? && k < |passes|
  {
    if k == 0 then ValueOn(passes[0], a, sizes, env)
    else ValueAt(passes[1..], k - 1, a, SizesAfter(passes[0], passes[1..], sizes, result, env), result, env)
  }

  lemma {:induction false} SomePassRounds(passes: seq<Pass>, sizes: Sizes, result: string, env: Env) returns (k: nat, a: Axis)
    requires RunPasses(passes, sizes, result, env).Some? && !RoundsNothing(passes, sizes, result, env)
    ensures k < |passes| && RoundsAt(passes, k, a, sizes, result, env)
    ensures 0 < LlRound(ValueAt(passes, k, a, sizes, result, env)) && !IsWhole(ValueAt(passes, k, a, sizes, result, env))
  {
    hide EvaluateRpn, LlRound, Kept, IsWhole;
    var p := passes[0];
    if Destination(p) == "OUTPUT" || WholeSize(p, sizes, env) {
      var j, b := SomePassRounds(passes[1..], SizesAfter(p, passes[1..], sizes, result, env), result, env);
      k, a := j + 1, b;
    } else {
      k, a := 0, if IsWhole(EvaluateRpn(p.width, sizes, env).value) then H else W;
    }
  }

  ghost predicate Unused(name: string, passes: seq<Pass>) { forall p :: p in passes ==> !Mentions(p, name) }

  lemma SplicedRetains(later: seq<Pass>, k: nat, q: Pass, r: Pass, result: string)
    requires k < |later|
    ensures Retained(later, result) <= Retained(Spliced(later, k, q, r), result)
  {
    var qs := Spliced(later, k, q, r);
    forall s | s in Retained(later, result) ensures s in Retained(qs, result) {
      if s != result && s != "LUMA" {
        var u: Pass, b: string :| u in later && b in u.bindings && b == s;
        assert later == later[..k] + [later[k]] + later[k + 1..];
        assert u in qs;
      }
    }
  }

  lemma HeadExtends(p: Pass, later: seq<Pass>, spliced: seq<Pass>, dims: SymDims, original: Sizes, sizes: Sizes,
                    y: string, result: string, env: Env)
    requires Ready(p, dims, original, env) && Extends(original, sizes)
    requires Retained(later, result) <= Retained(spliced, result) && y !in original && !Mentions(p, y)
    ensures Ready(p, dims, sizes, env) && OutputDims(p, dims).Some?
    ensures var next := SizesAfter(p, later, original, result, env);
      && Extends(next, SizesAfter(p, spliced, sizes, result, env)) && y !in next
      && forall s :: s in next ==> s in Retained(later, result)
    ensures y !in dims ==> y !in DimsAfter(p, dims)
  {
    hide OutputSize, OutputDims, Retained, Reads;
    ReadyGrows(p, dims, dims, original, sizes, env);
  }

  lemma FirstIsReady(passes: seq<Pass>, dims: SymDims, sizes: Sizes, result: string, env: Env)
    requires passes != [] && PlansFrom(passes, dims).Some? && RunPasses(passes, sizes, result, env).Some?
    ensures Ready(passes[0], dims, sizes, env)
    ensures PlansFrom(passes[1..], DimsAfter(passes[0], dims)).Some?
    ensures RunPasses(passes[1..], SizesAfter(passes[0], passes[1..], sizes, result, env), result, env).Some?
  {
    hide PassAccepted, OutputSize, Kept, PlanFor;
  }

  /** Splicing around the k-th pass misleads the reader wherever that pass rounds. */
  lemma {:induction false} RoundingMisleads(passes: seq<Pass>, k: nat, a: Axis, m: nat, n: nat, y: string, z: string,
                                            extra: seq<string>, dims: SymDims, original: Sizes, sizes: Sizes,
                                            result: string, env: Env)
    requires PlansFrom(passes, dims).Some? && RunPasses(passes, original, result, env).Some?
    requires k < |passes| && RoundsAt(passes, k, a, original, result, env) && Extends(original, sizes)
    requires TellsApart(ValueAt(passes, k, a, original, result, env), m, n)
    requires Unused(y, passes) && Unused(z, passes) && y !in dims && z !in dims && y !in original && z !in original
    requires |extra| <= 2 && (forall b :: b in extra ==> b in dims && b in original) && (k > 0 ==> extra == [])
    requires k == 0 ==> forall s :: s in original ==>
               s in Retained(passes, result) || s == Destination(passes[0]) || s in extra
    ensures var p := passes[k];
      Misled(Spliced(passes, k, Probe(p, a, m, n, y), Reader(p, a, m, n, y, z, extra)), k + 2, y, dims, sizes, result, env)
  {
    hide Misled, OutputSize, OutputDims, Retained, Mentions, TellsApart, Probe, Reader, PlansFrom, RunPasses, IsWhole, Ready;
    hide Extends, DimsAfter, SizesAfter, Spliced;
    var p, later := passes[0], passes[1..];
    var q, r := Probe(passes[k], a, m, n, y), Reader(passes[k], a, m, n, y, z, extra);
    SplicedTail(passes, k, q, r);
    FirstIsReady(passes, dims, original, result, env);
    assert p in passes && passes == [p] + later;
    var qs := Spliced(passes, k, q, r);
    if k == 0 {
      assert qs == [q, p, r] + later;
      SpliceMisleads(p, later, a, m, n, y, z, extra, dims, original, sizes, result, env);
    } else {
      SplicedRetains(later, k - 1, q, r, result);
      HeadExtends(p, later, qs[1..], dims, original, sizes, y, result, env);
      HeadExtends(p, later, qs[1..], dims, original, sizes, z, result, env);
      ReadyHas(p, dims, original, env);
      ReadyHas(p, dims, sizes, env);
      RoundingMisleads(later, k - 1, a, m, n, y, z, [], DimsAfter(p, dims), SizesAfter(p, later, original, result, env),
                       SizesAfter(p, qs[1..], sizes, result, env), result, env);
      MisledLater(qs, k + 2, y, dims, sizes, result, env);
    }
  }

  // ---- the exact condition --------------------------------------------------------------------------------

  lemma {:induction false} LongerThanAll(names: set<string>) returns (l: nat)
    ensures forall s :: s in names ==> |s| < l
    decreases |names|
  {
    l := 0;
    if names != {} {
      var s := SomeName(names);
      var j := LongerThanAll(names - {s});
      l := if j <= |s| then |s| + 1 else j;
    }
  }

  lemma SomeName(names: set<string>) returns (s: string)
    requires names != {}
    ensures s in names
  {
    assert exists t :: t in names by {
      assert (forall t :: t !in names) ==> names == {};
    }
    s :| s in names;
  }

  function Long(l: nat): string { seq(l, _ => 'x') }

  /** The names a list uses. */
  function NamesOf(passes: seq<Pass>): set<string> {
    (set p, b | p in passes && b in p.bindings :: b) + (set p | p in passes :: Destination(p))
    + (set p, t | p in passes && t in p.width && t.Size? :: t.resource)
    + (set p, t | p in passes && t in p.height && t.Size? :: t.resource)
  }

  lemma MentionedIsNamed(p: Pass, name: string, passes: seq<Pass>)
    requires p in passes
    ensures Mentions(p, name) ==> name in NamesOf(passes)
  {
    if Reads(p.width, name) {
      var t :| t in p.width && t.Size? && t.resource == name;
    } else if Reads(p.height, name) {
      var t :| t in p.height && t.Size? && t.resource == name;
    }
  }

  lemma OthersAreUnused(name: string, passes: seq<Pass>)
    requires name !in NamesOf(passes)
    ensures Unused(name, passes)
  {
    hide NamesOf, Mentions;
    forall p | p in passes ensures !Mentions(p, name) {
      MentionedIsNamed(p, name, passes);
    }
  }

  /** No two passes spliced around one of the list's own let the second be misled about the first. */
  ghost predicate NeverMisled(passes: seq<Pass>, result: string, env: Env) {
    forall k: nat, y, z :: k < |passes| && TokenPasses([y, z]) && !Mentions(passes[k], Destination(y)) ==>
      !Misled(Spliced(passes, k, y, z), k + 2, Destination(y), INITIAL, StartSizes(env), result, env)
  }

  lemma ProbesHaveTokens(p: Pass, a: Axis, m: nat, n: nat, y: string, z: string, extra: seq<string>)
    requires Tokens(p.width) && Tokens(p.height)
    ensures TokenPasses([Probe(p, a, m, n, y), Reader(p, a, m, n, y, z, extra)])
  {
    NaturalIs(1);
    NaturalIs(m);
    NaturalIs(n);
    hide Natural, IsToken;
  }

  /** MAIN and HOOKED, which the first pass may read without binding them. */
  function Anchors(p: Pass): seq<string> {
    (if Destination(p) == "MAIN" then [] else ["MAIN"]) + (if Destination(p) == "HOOKED" then [] else ["HOOKED"])
  }

  lemma RoundingIsSeen(passes: seq<Pass>, result: string, env: Env)
    requires TokenPasses(passes)
    requires PlansFrom(passes, INITIAL).Some? && RunPasses(passes, StartSizes(env), result, env).Some?
    requires !RoundsNothing(passes, StartSizes(env), result, env)
    ensures !NeverMisled(passes, result, env)
  {
    var start := StartSizes(env);
    var k, a := SomePassRounds(passes, start, result, env);
    var v := ValueAt(passes, k, a, start, result, env);
    var m, n := Telling(v);
    var names := NamesOf(passes) + {"MAIN", "HOOKED", "LUMA"};
    var l := LongerThanAll(names);
    var y, z := Long(l), Long(l + 1);
    OthersAreUnused(y, passes);
    OthersAreUnused(z, passes);
    var p := passes[k];
    assert p in passes;
    var extra := if k == 0 then Anchors(p) else [];
    hide Misled, RunPasses, PlansFrom, RoundsNothing, RoundsAt, ValueAt, LlRound, Tokens, Mentions, NamesOf, TellsApart, Long;
    hide Probe, Reader, Spliced;
    RoundingMisleads(passes, k, a, m, n, y, z, extra, INITIAL, start, start, result, env);
    ProbesHaveTokens(p, a, m, n, y, z, extra);
    var q, r := Probe(p, a, m, n, y), Reader(p, a, m, n, y, z, extra);
    assert Misled(Spliced(passes, k, q, r), k + 2, Destination(q), INITIAL, start, result, env);
  }

  /** Rounding can contradict the generator about a pass list exactly if it changes a size there that an
      expression can read: for every list, source and target size, and every pair of spliced passes. */
  lemma RoundsNothingIff(passes: seq<Pass>, result: string, env: Env)
    requires TokenPasses(passes)
    requires PlansFrom(passes, INITIAL).Some? && RunPasses(passes, StartSizes(env), result, env).Some?
    ensures RoundsNothing(passes, StartSizes(env), result, env) <==> NeverMisled(passes, result, env)
  {
    hide Misled, PlansFrom, RunPasses, RoundsNothing, TokenPasses;
    if RoundsNothing(passes, StartSizes(env), result, env) {
      StartAgrees(env);
      forall k: nat, y, z | k < |passes| && TokenPasses([y, z]) && !Mentions(passes[k], Destination(y))
        ensures !Misled(Spliced(passes, k, y, z), k + 2, Destination(y), INITIAL, StartSizes(env), result, env)
      {
        Honest(passes, k, y, z, INITIAL, StartSizes(env), StartSizes(env), result, env);
      }
    } else {
      RoundingIsSeen(passes, result, env);
    }
  }

  /** Why splices and not continuations: a continuation can round for itself. The empty list rounds
      nothing, and the three halving passes after it mislead their last one. */
  lemma ContinuationsRoundThemselves(env: Env)
    requires 0 < env.input.w < MAX_TEXTURE && 0 < env.input.h <= MAX_TEXTURE && env.input.w % 2 == 1
    ensures RunPasses([], StartSizes(env), "MAIN", env).Some? && RoundsNothing([], StartSizes(env), "MAIN", env)
    ensures |[] + HalvingPasses()| == 3 && Misled([] + HalvingPasses(), 2, "FULL", INITIAL, StartSizes(env), "MAIN", env)
  {
    RoundingDecidesTheClaim(env);
    hide PlansFrom, RunPasses, RoundsNothing;
    assert [] + HalvingPasses() == HalvingPasses();
    assert Bound(HalvingPasses()[2], "FULL") == Some("FULL");
  }
}

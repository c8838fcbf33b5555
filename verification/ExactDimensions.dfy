/** The dimension analysis in exact arithmetic: where sizes are real numbers nothing stands between
    the generator's claims and the sizes but the text of its constants. */
module ExactDimensions {
  import opened Numerals
  import opened DimensionAnalysis
  import opened DimensionSoundness
  import opened Wrappers

  // ---- a renderer that does not round ---------------------------------------------------------------

  /** What one pass saw: real resource sizes and its own real output size. */
  datatype RealRan = RealRan(sizes: RealSizes, output: Pair<real>)

  function RealOutput(p: Pass, sizes: RealSizes, env: Env): Option<Pair<real>> {
    var w, h := Evaluate(p.width, sizes, env), Evaluate(p.height, sizes, env);
    if w.None? || h.None? then None else Some(Pair(w.value, h.value))
  }

  function RealKept(sizes: RealSizes, p: Pass, out: Pair<real>, later: seq<Pass>, result: string): RealSizes {
    var saved := sizes[Destination(p) := out];
    map r | r in saved && r in Retained(later, result) :: saved[r]
  }

  /** The planning loop without llround and without the texture limits that go with it. */
  function RealPasses(passes: seq<Pass>, sizes: RealSizes, result: string, env: Env): Option<seq<RealRan>> {
    if passes == [] then Some([])
    else
      var p := passes[0];
      match RealOutput(p, sizes, env)
      case None => None
      case Some(out) =>
        if !(0 < |p.bindings| <= MAX_INPUTS) || !(forall b :: b in p.bindings ==> b in sizes) then None
        else
          match RealPasses(passes[1..], RealKept(sizes, p, out, passes[1..], result), result, env)
          case None => None
          case Some(rest) => Some([RealRan(sizes, out)] + rest)
  }

  // ---- the number a symbolic size denotes --------------------------------------------------------

  /** Constants read literally. */
  function Meaning(e: Sym, env: Env): Option<real> {
    match e
    case Constant(c) => Some(Value(c))
    case Input(a) => Some(env.input.On(a) as real)
    case Target(a) => Some(env.target.On(a) as real)
    case Bin(op, l, r) =>
      var x, y := Meaning(l, env), Meaning(r, env);
      if x.None? || y.None? then None else Apply(op, x.value, y.value)
  }

  /** No number token of these loses a significant exponent digit in its normal form. */
  predicate KeepsExponents(tokens: seq<Token>) {
    forall k :: 0 <= k < |tokens| ==> tokens[k].Num? ==> !LosesExponent(tokens[k].n)
  }

  ghost predicate Denotes(dims: SymDims, sizes: RealSizes, env: Env) {
    forall r :: r in sizes ==>
      r in dims && Meaning(dims[r].w, env) == Some(sizes[r].w) && Meaning(dims[r].h, env) == Some(sizes[r].h)
  }

  ghost predicate StackDenotes(sym: seq<Sym>, stack: seq<real>, env: Env) {
    |sym| == |stack| && forall k :: 0 <= k < |sym| ==> Meaning(sym[k], env) == Some(stack[k])
  }

  lemma CombineMeans(op: Operator, l: Sym, r: Sym, x: real, y: real, env: Env)
    requires Meaning(l, env) == Some(x) && Meaning(r, env) == Some(y)
    ensures Apply(op, x, y).Some? ==> Meaning(Combine(op, l, r), env) == Apply(op, x, y)
  {
    hide Value;
    if l.Constant? && IsOne(l.n) { OneIsOne(l.n); }
    if r.Constant? && IsOne(r.n) { OneIsOne(r.n); }
  }

  lemma StepDenotes(sym: seq<Sym>, stack: seq<real>, t: Token, axis: Axis, dims: SymDims, sizes: RealSizes, env: Env)
    requires StackDenotes(sym, stack, env) && Denotes(dims, sizes, env)
    requires t.Num? ==> !LosesExponent(t.n)
    requires SymStep(sym, t, axis, dims).Some? && RunStep(stack, t, sizes, env).Some?
    ensures StackDenotes(SymStep(sym, t, axis, dims).value, RunStep(stack, t, sizes, env).value, env)
  {
    hide Value, Canon, Combine, Apply, LosesExponent;
    if t.Num? { CanonExactIff(t.n); }
    if t.Op? {
      CombineMeans(t.op, sym[|sym| - 2], sym[|sym| - 1], stack[|stack| - 2], stack[|stack| - 1], env);
    }
  }

  lemma {:induction false} RunDenotes(sym: seq<Sym>, stack: seq<real>, tokens: seq<Token>, axis: Axis,
                                      dims: SymDims, sizes: RealSizes, env: Env)
    requires StackDenotes(sym, stack, env) && Denotes(dims, sizes, env) && KeepsExponents(tokens)
    requires SymRun(sym, tokens, axis, dims).Some? && Run(stack, tokens, sizes, env).Some?
    ensures StackDenotes(SymRun(sym, tokens, axis, dims).value, Run(stack, tokens, sizes, env).value, env)
    decreases |tokens|
  {
    hide StackDenotes, Denotes, LosesExponent;
    if tokens != [] {
      StepDenotes(sym, stack, tokens[0], axis, dims, sizes, env);
      RunDenotes(SymStep(sym, tokens[0], axis, dims).value, RunStep(stack, tokens[0], sizes, env).value,
                 tokens[1..], axis, dims, sizes, env);
    }
  }

  /** The expression's real value is what its normal form denotes. */
  lemma EvalDenotes(tokens: seq<Token>, axis: Axis, dims: SymDims, sizes: RealSizes, env: Env)
    requires Denotes(dims, sizes, env) && KeepsExponents(tokens)
    requires SymEval(tokens, axis, dims).Some? && Evaluate(tokens, sizes, env).Some?
    ensures Meaning(SymEval(tokens, axis, dims).value, env) == Evaluate(tokens, sizes, env)
  {
    RunDenotes([], [], tokens, axis, dims, sizes, env);
  }

  // ---- exactness ------------------------------------------------------------------------------------

  /** Every resource a plan loads by integer coordinates has exactly the pass output's size. */
  ghost predicate LoadsAreExact(p: Pass, plan: Plan, ran: RealRan) {
    forall n :: n in plan.currentLoads + plan.texOffLoads ==>
      Bound(p, n).Some? && Bound(p, n).value in ran.sizes && ran.sizes[Bound(p, n).value] == ran.output
  }

  ghost predicate ExponentsKept(passes: seq<Pass>) {
    forall p :: p in passes ==> KeepsExponents(p.width) && KeepsExponents(p.height)
  }

  lemma FirstPassExact(p: Pass, dims: SymDims, sizes: RealSizes, env: Env)
    requires Denotes(dims, sizes, env) && KeepsExponents(p.width) && KeepsExponents(p.height)
    requires PassAccepted(p, dims) && RealOutput(p, sizes, env).Some?
    requires forall b :: b in p.bindings ==> b in sizes
    ensures var out, size := OutputDims(p, dims).value, RealOutput(p, sizes, env).value;
      && Meaning(out.w, env) == Some(size.w) && Meaning(out.h, env) == Some(size.h)
      && LoadsAreExact(p, PlanFor(p, dims), RealRan(sizes, size))
  {
    hide Meaning, SymEval, Evaluate, KeepsExponents;
    EvalDenotes(p.width, W, dims, sizes, env);
    EvalDenotes(p.height, H, dims, sizes, env);
    forall n | n in PlanFor(p, dims).currentLoads + PlanFor(p, dims).texOffLoads
      ensures Bound(p, n).Some? && Bound(p, n).value in sizes
      ensures sizes[Bound(p, n).value] == RealOutput(p, sizes, env).value
    {
      assert dims[Bound(p, n).value] == OutputDims(p, dims).value;
    }
  }

  lemma {:induction false} PlansExact(passes: seq<Pass>, dims: SymDims, sizes: RealSizes, result: string, env: Env)
    requires Denotes(dims, sizes, env) && ExponentsKept(passes)
    requires PlansFrom(passes, dims).Some? && RealPasses(passes, sizes, result, env).Some?
    ensures |PlansFrom(passes, dims).value| == |RealPasses(passes, sizes, result, env).value| == |passes|
    ensures forall k :: 0 <= k < |passes| ==>
              LoadsAreExact(passes[k], PlansFrom(passes, dims).value[k], RealPasses(passes, sizes, result, env).value[k])
  {
    hide OutputDims, RealOutput, LoadsAreExact, PlanFor, Meaning, KeepsExponents, Retained;
    if passes != [] {
      var p := passes[0];
      assert p in passes;
      FirstPassExact(p, dims, sizes, env);
      var out, size := OutputDims(p, dims).value, RealOutput(p, sizes, env).value;
      PlansExact(passes[1..], dims[Destination(p) := out], RealKept(sizes, p, size, passes[1..], result), result, env);
    }
  }

  /** For every pass list whose constants keep their exponents and every source and target size: in
      exact arithmetic each resource marked for integer loads has the size of the pass's output. */
  lemma AnalysisExact(passes: seq<Pass>, result: string, env: Env)
    requires ExponentsKept(passes)
    requires PlansFrom(passes, INITIAL).Some? && RealPasses(passes, Reals(StartSizes(env)), result, env).Some?
    ensures |PlansFrom(passes, INITIAL).value| == |RealPasses(passes, Reals(StartSizes(env)), result, env).value|
            == |passes|
    ensures forall k :: 0 <= k < |passes| ==>
              LoadsAreExact(passes[k], PlansFrom(passes, INITIAL).value[k],
                            RealPasses(passes, Reals(StartSizes(env)), result, env).value[k])
  {
    PlansExact(passes, INITIAL, Reals(StartSizes(env)), result, env);
  }

  // ---- what an exponent can do ------------------------------------------------------------------

  /** 1.5e10 and 1.5e1, which the generator cannot tell apart. */
  const LONG := Numeral("", [1], true, [5], Exponent('e', "", [1, 0]))
  const SHORT := Numeral("", [1], true, [5], Exponent('e', "", [1]))

  function Scaled(name: string, bindings: seq<string>, n: Numeral, used: set<string>): Pass {
    Saving(name, bindings, [Size("MAIN", W), Num(n), Op(Times)], used)
  }

  /** FAR = MAIN * 1.5e10, and a pass of size MAIN * 1.5e1 that reads it. */
  function ExponentPasses(): seq<Pass> {
    [Scaled("FAR", ["MAIN"], LONG, {}), Scaled("OUT", ["FAR", "MAIN"], SHORT, {"FAR"})]
  }

  lemma ExponentsMerge()
    ensures Canon(LONG) == SHORT && Canon(SHORT) == SHORT && !IsOne(SHORT) && IsToken(LONG) && IsToken(SHORT)
    ensures LosesExponent(LONG) && 0.0 < Value(SHORT) < Value(LONG)
  {
    var one: seq<Digit>, ten: seq<Digit> := [1], [1, 0];
    assert one[..0] == [] && ten[..1] == one;
    assert StripZeros(one) == one && StripZeros(ten) == one;
    assert Whole(one) == 1 && Whole(ten) == 10;
    Pow10Grows(1, 10);
    Stretches(Mantissa(SHORT), Pow10(1), Pow10(10));
  }

  lemma Stretches(m: real, a: real, b: real)
    requires 0.0 < m && 0.0 < a < b
    ensures 0.0 < 1.0 * (m * a) < 1.0 * (m * b)
  {
    assert m * (b - a) > 0.0;
  }

  lemma ScaledSymbol(n: Numeral, dims: SymDims)
    requires "MAIN" in dims && dims["MAIN"] == Pair(Input(W), Input(H)) && !IsOne(Canon(n))
    ensures SymEval([Size("MAIN", W), Num(n), Op(Times)], W, dims) == Some(Bin(Times, Input(W), Constant(Canon(n))))
    ensures SymEval([Size("MAIN", H)], H, dims) == Some(Input(H))
  {
    hide Canon;
    var c, b := Constant(Canon(n)), Bin(Times, Input(W), Constant(Canon(n)));
    assert [Size("MAIN", W), Num(n), Op(Times)] == [Size("MAIN", W)] + ([Num(n)] + ([Op(Times)] + []));
    SymSize("MAIN", [Num(n)] + ([Op(Times)] + []), dims);
    assert [Input(W)] + [c] == [Input(W), c];
    SymCons([Input(W)], Num(n), [Op(Times)] + [], [Input(W), c], dims);
    assert [Input(W), c][..0] + [b] == [b];
    SymCons([Input(W), c], Op(Times), [], [b], dims);
    assert [] + [Input(H)] == [Input(H)];
  }

  lemma RunTimes(x: real, v: real, sizes: RealSizes, env: Env)
    ensures Run([x, v], [Op(Times)] + [], sizes, env) == Some([x * v])
  {
    var stack, p := [x, v], x * v;
    var q := Apply(Times, x, v).value;
    assert q == p;
    assert stack[..|stack| - 2] + [p] == [p];
    RunCons(stack, Op(Times), [], [p], sizes, env);
  }

  lemma ScaledValue(n: Numeral, sizes: RealSizes, env: Env)
    requires "MAIN" in sizes
    ensures var v := Evaluate([Size("MAIN", W), Num(n), Op(Times)], sizes, env);
      v.Some? && v.value == sizes["MAIN"].w * Value(n)
    ensures Evaluate([Size("MAIN", H)], sizes, env) == Some(sizes["MAIN"].h)
  {
    hide Value;
    var x := sizes["MAIN"].w;
    assert [Size("MAIN", W), Num(n), Op(Times)] == [Size("MAIN", W)] + ([Num(n)] + ([Op(Times)] + []));
    assert [] + [x] == [x];
    RunCons([], Size("MAIN", W), [Num(n)] + ([Op(Times)] + []), [x], sizes, env);
    assert [x] + [Value(n)] == [x, Value(n)];
    RunCons([x], Num(n), [Op(Times)] + [], [x, Value(n)], sizes, env);
    RunTimes(x, Value(n), sizes, env);
    assert [] + [sizes["MAIN"].h] == [sizes["MAIN"].h];
  }

  lemma RealPassesCons(p: Pass, later: seq<Pass>, sizes: RealSizes, result: string, env: Env, out: Pair<real>)
    requires RealOutput(p, sizes, env) == Some(out)
    requires 0 < |p.bindings| <= MAX_INPUTS && forall b :: b in p.bindings ==> b in sizes
    ensures var rest := RealPasses(later, RealKept(sizes, p, out, later, result), result, env);
      RealPasses([p] + later, sizes, result, env)
      == if rest.None? then None else Some([RealRan(sizes, out)] + rest.value)
  {
    hide RealOutput, RealKept;
    assert ([p] + later)[0] == p && ([p] + later)[1..] == later;
  }

  lemma ExponentPlanned()
    ensures var plans := PlansFrom(ExponentPasses(), INITIAL);
      plans.Some? && |plans.value| == 2 && "FAR" in plans.value[1].texOffLoads
  {
    var ps := ExponentPasses();
    var t1: seq<Pass> := [ps[1]];
    var out := Pair(Bin(Times, Input(W), Constant(SHORT)), Input(H));
    var after := INITIAL["FAR" := out];
    ExponentsMerge();
    hide Canon;
    ScaledSymbol(LONG, INITIAL);
    ScaledSymbol(SHORT, after);
    hide SymEval;
    assert PassAccepted(ps[0], INITIAL) && PassAccepted(ps[1], after);
    assert OutputDims(ps[0], INITIAL) == Some(out) && OutputDims(ps[1], after) == Some(out);
    assert Bound(ps[1], "FAR") == Some("FAR");
    assert SameSize(ps[1], after, "FAR");
    PlansCons(ps[1], [], after);
    PlansCons(ps[0], t1, INITIAL);
    assert ps == [ps[0]] + t1 && t1 == [ps[1]] + [];
  }

  lemma ScaledOutput(name: string, bindings: seq<string>, n: Numeral, used: set<string>, sizes: RealSizes, env: Env)
    requires "MAIN" in sizes
    ensures var out := RealOutput(Scaled(name, bindings, n, used), sizes, env);
      out.Some? && out.value.w == sizes["MAIN"].w * Value(n)
  {
    hide Evaluate, Value;
    ScaledValue(n, sizes, env);
  }

  /** The sizes the second pass finds. */
  lemma ExponentState(far: Pair<real>, env: Env)
    ensures var ps := ExponentPasses();
      var after := RealKept(Reals(StartSizes(env)), ps[0], far, [ps[1]], "MAIN");
      && "FAR" in after && after["FAR"] == far && "MAIN" in after && after["MAIN"].w == env.input.w as real
  {
    var ps := ExponentPasses();
    assert ps[1] in [ps[1]] && "FAR" in ps[1].bindings && "MAIN" in ps[1].bindings;
  }

  lemma ExponentExecuted(env: Env)
    ensures var ps, w := ExponentPasses(), env.input.w as real;
      var runs := RealPasses(ps, Reals(StartSizes(env)), "MAIN", env);
      && runs.Some? && |runs.value| == 2 && "FAR" in runs.value[1].sizes
      && runs.value[1].sizes["FAR"].w == w * Value(LONG) && runs.value[1].output.w == w * Value(SHORT)
  {
    hide Value, Evaluate, RealOutput, RealKept;
    var ps := ExponentPasses();
    var t1: seq<Pass> := [ps[1]];
    var start := Reals(StartSizes(env));
    ScaledOutput("FAR", ["MAIN"], LONG, {}, start, env);
    var far := RealOutput(ps[0], start, env).value;
    var after := RealKept(start, ps[0], far, t1, "MAIN");
    ExponentState(far, env);
    ScaledOutput("OUT", ["FAR", "MAIN"], SHORT, {"FAR"}, after, env);
    RealPassesCons(ps[1], [], after, "MAIN", env, RealOutput(ps[1], after, env).value);
    RealPassesCons(ps[0], t1, start, "MAIN", env, far);
    assert ps == [ps[0]] + t1 && t1 == [ps[1]] + [];
  }

  lemma Stretched(w: real, a: real, b: real)
    requires 0.0 < w && a < b
    ensures w * a < w * b
  {
    assert w * (b - a) > 0.0;
  }

  /** The proviso on exponents is needed: the second pass is told that FAR has its size, which is
      true of no source. */
  lemma ExponentDecidesTheClaim(env: Env)
    requires 0 < env.input.w
    ensures var ps := ExponentPasses();
      var plans, runs := PlansFrom(ps, INITIAL), RealPasses(ps, Reals(StartSizes(env)), "MAIN", env);
      && plans.Some? && |plans.value| == 2 && "FAR" in plans.value[1].texOffLoads
      && runs.Some? && |runs.value| == 2 && "FAR" in runs.value[1].sizes
      && runs.value[1].output.w < runs.value[1].sizes["FAR"].w
  {
    ExponentsMerge();
    ExponentPlanned();
    ExponentExecuted(env);
    hide Value, PlansFrom, RealPasses, ExponentPasses;
    Stretched(env.input.w as real, Value(SHORT), Value(LONG));
  }
}

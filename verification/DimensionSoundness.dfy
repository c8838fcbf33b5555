/** Running the generated passes (native/src/renderer/anime4k_pipeline.cpp) and when the
    generator's equal-size claims are true of that run. */
module DimensionSoundness {
  import opened Numerals
  import opened DimensionAnalysis
  import opened Wrappers

  // ---- the renderer's planner ---------------------------------------------------------------------

  type Sizes = map<string, Pair<int>>
  type RealSizes = map<string, Pair<real>>

  function Reals(sizes: Sizes): RealSizes {
    map r | r in sizes :: Pair(sizes[r].w as real, sizes[r].h as real)
  }

  /** One invocation: source size and requested target size. */
  datatype Env = Env(input: Pair<int>, target: Pair<int>)

  function Apply(op: Operator, left: real, right: real): Option<real> {
    match op
    case Times => Some(left * right)
    case Over => if right == 0.0 then None else Some(left / right)
    case Greater => Some(if left > right then 1.0 else 0.0)
  }

  /** evaluate_rpn, one token, in exact reals. */
  function RunStep(stack: seq<real>, t: Token, sizes: RealSizes, env: Env): Option<seq<real>> {
    match t
    case Op(op) =>
      if |stack| < 2 then None
      else
        var v := Apply(op, stack[|stack| - 2], stack[|stack| - 1]);
        if v.None? then None else Some(stack[..|stack| - 2] + [v.value])
    case Num(n) => Some(stack + [Value(n)])
    case Size(resource, a) =>
      if resource == "OUTPUT" then Some(stack + [env.target.On(a) as real])
      else if resource !in sizes then None
      else Some(stack + [sizes[resource].On(a)])
    case Junk => None
  }

  function Run(stack: seq<real>, tokens: seq<Token>, sizes: RealSizes, env: Env): Option<seq<real>>
    decreases |tokens|
  {
    if tokens == [] then Some(stack)
    else match RunStep(stack, tokens[0], sizes, env)
      case None => None
      case Some(next) => Run(next, tokens[1..], sizes, env)
  }

  function Evaluate(tokens: seq<Token>, sizes: RealSizes, env: Env): Option<real> {
    match Run([], tokens, sizes, env)
    case None => None
    case Some(stack) => if |stack| == 1 then Some(stack[0]) else None
  }

  function EvaluateRpn(tokens: seq<Token>, sizes: Sizes, env: Env): Option<real> {
    Evaluate(tokens, Reals(sizes), env)
  }

  /** llround: halves away from zero. */
  function LlRound(v: real): int { if v >= 0.0 then (v + 0.5).Floor else -((-v + 0.5).Floor) }

  const MAX_TEXTURE := 16384
  const MAX_INPUTS := 128

  function OutputSize(p: Pass, sizes: Sizes, env: Env): Option<Pair<int>> {
    var w, h := EvaluateRpn(p.width, sizes, env), EvaluateRpn(p.height, sizes, env);
    if w.None? || h.None? then None
    else
      var ow, oh := LlRound(w.value), LlRound(h.value);
      if ow <= 0 || oh <= 0 || ow > MAX_TEXTURE || oh > MAX_TEXTURE then None else Some(Pair(ow, oh))
  }

  /** Names a later pass still binds, plus the effect's result and LUMA, keep their sizes. */
  function Retained(later: seq<Pass>, result: string): set<string> {
    {result, "LUMA"} + (set p, b | p in later && b in p.bindings :: b)
  }

  /** What one pass saw: the resource sizes at its start and its own output size. */
  datatype Ran = Ran(sizes: Sizes, output: Pair<int>)

  function RunPasses(passes: seq<Pass>, sizes: Sizes, result: string, env: Env): Option<seq<Ran>> {
    if passes == [] then Some([])
    else
      var p := passes[0];
      match OutputSize(p, sizes, env)
      case None => None
      case Some(out) =>
        if !(0 < |p.bindings| <= MAX_INPUTS) || !(forall b :: b in p.bindings ==> b in sizes) then None
        else
          match RunPasses(passes[1..], Kept(sizes, p, out, passes[1..], result), result, env)
          case None => None
          case Some(rest) => Some([Ran(sizes, out)] + rest)
  }

  function StartSizes(env: Env): Sizes { map["MAIN" := env.input, "HOOKED" := env.input, "LUMA" := env.input] }

  // ---- what a symbolic size stands for -----------------------------------------------------------

  /** A value the symbolic size can stand for: each constant is any token of that normal form. */
  ghost predicate Realises(e: Sym, v: real, env: Env) {
    match e
    case Constant(c) => exists n :: IsToken(n) && Canon(n) == c && Value(n) == v
    case Input(a) => v == env.input.On(a) as real
    case Target(a) => v == env.target.On(a) as real
    case Bin(op, l, r) => exists x, y :: Realises(l, x, env) && Realises(r, y, env) && Apply(op, x, y) == Some(v)
  }

  lemma ApplyRelated(op: Operator, x: real, y: real, x': real, y': real, v: real, v': real)
    requires Apply(op, x, y) == Some(v) && Apply(op, x', y') == Some(v')
    requires Related(x, x') && Related(y, y')
    ensures Related(v, v')
  {
    hide Related;
    match op
    case Times => RelatedProduct(x, x', y, y');
    case Over => RelatedQuotient(x, x', y, y');
    case Greater =>
      RelatedRefl(1.0);
      RelatedZero(v, v');
  }

  lemma RelatedZero(v: real, w: real)
    ensures v == 0.0 || w == 0.0 ==> Related(v, w)
  {
  }

  /** Two values of one symbolic size are zero, or equal up to a power of 10^9. */
  lemma {:induction false} RealisationsRelated(e: Sym, v: real, w: real, env: Env)
    requires Realises(e, v, env) && Realises(e, w, env)
    ensures Related(v, w)
  {
    hide Related, Value, Canon, IsToken, Apply;
    match e {
      case Constant(c) =>
        var n :| IsToken(n) && Canon(n) == c && Value(n) == v;
        var m :| IsToken(m) && Canon(m) == c && Value(m) == w;
        SameCanonRelated(n, m);
      case Input(a) => RelatedRefl(v);
      case Target(a) => RelatedRefl(v);
      case Bin(op, l, r) =>
        var x, y :| Realises(l, x, env) && Realises(r, y, env) && Apply(op, x, y) == Some(v);
        var x', y' :| Realises(l, x', env) && Realises(r, y', env) && Apply(op, x', y') == Some(w);
        RealisationsRelated(l, x, x', env);
        RealisationsRelated(r, y, y', env);
        ApplyRelated(op, x, y, x', y', v, w);
    }
  }

  lemma OneRealises(e: Sym, v: real, env: Env)
    requires e.Constant? && IsOne(e.n) && Realises(e, v, env)
    ensures v == 1.0
  {
    var n :| IsToken(n) && Canon(n) == e.n && Value(n) == v;
    CanonExactIff(n);
    OneIsOne(e.n);
  }

  /** Dropping a factor or divisor 1 keeps the value. */
  lemma CombineRealises(op: Operator, l: Sym, r: Sym, x: real, y: real, v: real, env: Env)
    requires Realises(l, x, env) && Realises(r, y, env) && Apply(op, x, y) == Some(v)
    ensures Realises(Combine(op, l, r), v, env)
  {
    hide Value, Canon, IsToken;
    if r.Constant? && IsOne(r.n) { OneRealises(r, y, env); }
    if l.Constant? && IsOne(l.n) { OneRealises(l, x, env); }
  }

  // ---- the two stack machines side by side --------------------------------------------------------

  /** A size the renderer gives a texture whose symbolic size is e; all but the source's are limited. */
  ghost predicate Rounded(e: Sym, size: int, env: Env) {
    exists v :: Realises(e, v, env) && LlRound(v) == size && (e.Input? || 0 < size <= MAX_TEXTURE)
  }

  /** Known sizes come from their symbols, and those an expression can read are values of them. */
  ghost predicate Agrees(dims: SymDims, sizes: Sizes, env: Env) {
    forall r :: r in sizes ==>
      && r in dims
      && Rounded(dims[r].w, sizes[r].w, env) && Rounded(dims[r].h, sizes[r].h, env)
      && (r != "OUTPUT" ==>
            Realises(dims[r].w, sizes[r].w as real, env) && Realises(dims[r].h, sizes[r].h as real, env))
  }

  /** Every real size is a value of its symbol. OUTPUT names the target in every expression, so a
      resource saved under that name is never read. */
  ghost predicate Stand(dims: SymDims, sizes: RealSizes, env: Env) {
    forall r :: r in sizes && r != "OUTPUT" ==>
      r in dims && Realises(dims[r].w, sizes[r].w, env) && Realises(dims[r].h, sizes[r].h, env)
  }

  ghost predicate StackAgrees(sym: seq<Sym>, stack: seq<real>, env: Env) {
    |sym| == |stack| && forall k :: 0 <= k < |sym| ==> Realises(sym[k], stack[k], env)
  }

  ghost predicate Tokens(tokens: seq<Token>) {
    forall k :: 0 <= k < |tokens| ==> tokens[k].Num? ==> IsToken(tokens[k].n)
  }

  lemma StepAgrees(sym: seq<Sym>, stack: seq<real>, t: Token, axis: Axis, dims: SymDims, sizes: RealSizes, env: Env)
    requires StackAgrees(sym, stack, env) && Stand(dims, sizes, env)
    requires t.Num? ==> IsToken(t.n)
    requires SymStep(sym, t, axis, dims).Some? && RunStep(stack, t, sizes, env).Some?
    ensures StackAgrees(SymStep(sym, t, axis, dims).value, RunStep(stack, t, sizes, env).value, env)
  {
    hide Value, Canon, Combine, Apply, IsToken;
    if t.Num? { assert Realises(Constant(Canon(t.n)), Value(t.n), env); }
    if t.Op? {
      var l, r := sym[|sym| - 2], sym[|sym| - 1];
      var x, y := stack[|stack| - 2], stack[|stack| - 1];
      assert Realises(l, x, env) && Realises(r, y, env);
      CombineRealises(t.op, l, r, x, y, Apply(t.op, x, y).value, env);
    }
  }

  lemma {:induction false} RunAgrees(sym: seq<Sym>, stack: seq<real>, tokens: seq<Token>, axis: Axis,
                                     dims: SymDims, sizes: RealSizes, env: Env)
    requires StackAgrees(sym, stack, env) && Stand(dims, sizes, env) && Tokens(tokens)
    requires SymRun(sym, tokens, axis, dims).Some? && Run(stack, tokens, sizes, env).Some?
    ensures StackAgrees(SymRun(sym, tokens, axis, dims).value, Run(stack, tokens, sizes, env).value, env)
    decreases |tokens|
  {
    hide IsToken, StackAgrees, Stand;
    if tokens != [] {
      StepAgrees(sym, stack, tokens[0], axis, dims, sizes, env);
      RunAgrees(SymStep(sym, tokens[0], axis, dims).value, RunStep(stack, tokens[0], sizes, env).value,
                tokens[1..], axis, dims, sizes, env);
    }
  }

  /** The expression's real value is a value of its normal form. */
  lemma EvalAgrees(tokens: seq<Token>, axis: Axis, dims: SymDims, sizes: Sizes, env: Env)
    requires Agrees(dims, sizes, env) && Tokens(tokens)
    requires SymEval(tokens, axis, dims).Some? && EvaluateRpn(tokens, sizes, env).Some?
    ensures Realises(SymEval(tokens, axis, dims).value, EvaluateRpn(tokens, sizes, env).value, env)
  {
    RunAgrees([], [], tokens, axis, dims, Reals(sizes), env);
  }

  lemma RoundsWithin(v: real)
    requires 0 < LlRound(v) <= MAX_TEXTURE
    ensures 0.5 <= v <= 20000.0
  {
  }

  /** One symbolic size, two texture sizes: equal. */
  lemma SameSymbolSameSize(e: Sym, a: int, b: int, env: Env)
    requires Rounded(e, a, env) && Rounded(e, b, env)
    ensures a == b
  {
    var v :| Realises(e, v, env) && LlRound(v) == a && (e.Input? || 0 < a <= MAX_TEXTURE);
    var w :| Realises(e, w, env) && LlRound(w) == b && (e.Input? || 0 < b <= MAX_TEXTURE);
    if !e.Input? {
      hide Realises;
      RealisationsRelated(e, v, w, env);
      RoundsWithin(v);
      RoundsWithin(w);
      hide LlRound;
      RelatedInRange(v, w);
    }
  }

  // ---- soundness ------------------------------------------------------------------------------------

  ghost predicate TokenPasses(passes: seq<Pass>) {
    forall p :: p in passes ==> Tokens(p.width) && Tokens(p.height)
  }

  function Kept(sizes: Sizes, p: Pass, out: Pair<int>, later: seq<Pass>, result: string): Sizes {
    var saved := sizes[Destination(p) := out];
    map r | r in saved && r in Retained(later, result) :: saved[r]
  }

  predicate IsWhole(v: real) { v == v.Floor as real }

  predicate WholeSize(p: Pass, sizes: Sizes, env: Env)
    requires EvaluateRpn(p.width, sizes, env).Some? && EvaluateRpn(p.height, sizes, env).Some?
  {
    IsWhole(EvaluateRpn(p.width, sizes, env).value) && IsWhole(EvaluateRpn(p.height, sizes, env).value)
  }

  /** On this run rounding changes no size an expression could read: a check the planner could make
      as it goes. */
  ghost predicate RoundsNothing(passes: seq<Pass>, sizes: Sizes, result: string, env: Env)
    requires RunPasses(passes, sizes, result, env).Some?
  {
    passes == [] ||
    (var p := passes[0];
     && (Destination(p) == "OUTPUT" || WholeSize(p, sizes, env))
     && RoundsNothing(passes[1..], Kept(sizes, p, OutputSize(p, sizes, env).value, passes[1..], result), result, env))
  }

  /** Every resource a plan loads by integer coordinates has the pass output's size. */
  ghost predicate LoadsAreSafe(p: Pass, plan: Plan, ran: Ran) {
    forall n :: n in plan.currentLoads + plan.texOffLoads ==>
      Bound(p, n).Some? && Bound(p, n).value in ran.sizes && ran.sizes[Bound(p, n).value] == ran.output
  }

  lemma FirstPassSafe(p: Pass, dims: SymDims, sizes: Sizes, out: Pair<Sym>, size: Pair<int>, env: Env)
    requires Agrees(dims, sizes, env) && PassAccepted(p, dims) && OutputDims(p, dims) == Some(out)
    requires forall b :: b in p.bindings ==> b in sizes
    requires Rounded(out.w, size.w, env) && Rounded(out.h, size.h, env)
    ensures LoadsAreSafe(p, PlanFor(p, dims), Ran(sizes, size))
  {
    hide OutputDims, Realises, Rounded;
    forall n | n in PlanFor(p, dims).currentLoads + PlanFor(p, dims).texOffLoads
      ensures Bound(p, n).Some? && Bound(p, n).value in sizes && sizes[Bound(p, n).value] == size
    {
      var b := Bound(p, n).value;
      assert b in p.bindings && dims[b] == out;
      SameSymbolSameSize(out.w, sizes[b].w, size.w, env);
      SameSymbolSameSize(out.h, sizes[b].h, size.h, env);
    }
  }

  lemma RoundExact(v: real)
    requires IsWhole(v)
    ensures LlRound(v) as real == v
  {
    var k := v.Floor;
    if v >= 0.0 {
      FloorIs(v + 0.5, k);
    } else {
      FloorIs(-v + 0.5, -k);
    }
  }

  lemma FloorIs(v: real, k: int)
    requires k as real <= v < k as real + 1.0
    ensures v.Floor == k
  {
  }

  lemma OutputRounds(p: Pass, dims: SymDims, sizes: Sizes, env: Env)
    requires Agrees(dims, sizes, env) && Tokens(p.width) && Tokens(p.height)
    requires OutputDims(p, dims).Some? && OutputSize(p, sizes, env).Some?
    ensures var out, size := OutputDims(p, dims).value, OutputSize(p, sizes, env).value;
      && Rounded(out.w, size.w, env) && Rounded(out.h, size.h, env)
      && (WholeSize(p, sizes, env) ==>
            Realises(out.w, size.w as real, env) && Realises(out.h, size.h as real, env))
  {
    hide Realises, SymEval, EvaluateRpn, Agrees, LlRound;
    EvalAgrees(p.width, W, dims, sizes, env);
    EvalAgrees(p.height, H, dims, sizes, env);
    if WholeSize(p, sizes, env) {
      RoundExact(EvaluateRpn(p.width, sizes, env).value);
      RoundExact(EvaluateRpn(p.height, sizes, env).value);
    }
  }

  lemma KeptAgrees(p: Pass, dims: SymDims, sizes: Sizes, out: Pair<Sym>, size: Pair<int>, later: seq<Pass>, result: string, env: Env)
    requires Agrees(dims, sizes, env)
    requires Rounded(out.w, size.w, env) && Rounded(out.h, size.h, env)
    requires Destination(p) != "OUTPUT" ==>
               Realises(out.w, size.w as real, env) && Realises(out.h, size.h as real, env)
    ensures Agrees(dims[Destination(p) := out], Kept(sizes, p, size, later, result), env)
  {
    hide Realises, Rounded, Retained;
  }

  lemma StartAgrees(env: Env)
    ensures Agrees(INITIAL, StartSizes(env), env)
  {
    RoundExact(env.input.w as real);
    RoundExact(env.input.h as real);
    hide LlRound;
    assert Realises(Input(W), env.input.w as real, env) && Realises(Input(H), env.input.h as real, env);
    assert Rounded(Input(W), env.input.w, env) && Rounded(Input(H), env.input.h, env);
  }

  /** Soundness of the analysis over a whole pass list, rebinding by SAVE included. */
  lemma {:induction false} PlansSound(passes: seq<Pass>, dims: SymDims, sizes: Sizes, result: string, env: Env)
    requires Agrees(dims, sizes, env) && TokenPasses(passes)
    requires PlansFrom(passes, dims).Some? && RunPasses(passes, sizes, result, env).Some?
    requires RoundsNothing(passes, sizes, result, env)
    ensures |PlansFrom(passes, dims).value| == |RunPasses(passes, sizes, result, env).value| == |passes|
    ensures forall k :: 0 <= k < |passes| ==>
              LoadsAreSafe(passes[k], PlansFrom(passes, dims).value[k], RunPasses(passes, sizes, result, env).value[k])
  {
    hide Agrees, OutputDims, OutputSize, EvaluateRpn, LoadsAreSafe, PlanFor, Realises, Rounded, WholeSize, Kept;
    if passes != [] {
      var p := passes[0];
      assert p in passes;
      OutputRounds(p, dims, sizes, env);
      var out, size := OutputDims(p, dims).value, OutputSize(p, sizes, env).value;
      FirstPassSafe(p, dims, sizes, out, size, env);
      KeptAgrees(p, dims, sizes, out, size, passes[1..], result, env);
      PlansSound(passes[1..], dims[Destination(p) := out], Kept(sizes, p, size, passes[1..], result), result, env);
    }
  }

  /** The analysis as run, for every source and target size and every constant token: while
      rounding changes no readable size, each resource marked for integer loads has exactly the
      output's dimensions. */
  lemma AnalysisSound(passes: seq<Pass>, result: string, env: Env)
    requires TokenPasses(passes)
    requires PlansFrom(passes, INITIAL).Some? && RunPasses(passes, StartSizes(env), result, env).Some?
    requires RoundsNothing(passes, StartSizes(env), result, env)
    ensures |PlansFrom(passes, INITIAL).value| == |RunPasses(passes, StartSizes(env), result, env).value| == |passes|
    ensures forall k :: 0 <= k < |passes| ==>
              LoadsAreSafe(passes[k], PlansFrom(passes, INITIAL).value[k],
                           RunPasses(passes, StartSizes(env), result, env).value[k])
  {
    StartAgrees(env);
    PlansSound(passes, INITIAL, StartSizes(env), result, env);
  }

  // ---- when rounding cannot interfere ---------------------------------------------------------------

  /** Sizes, products and whole constants only: what every shipped pass writes. */
  predicate WholeTokens(tokens: seq<Token>) {
    forall k :: 0 <= k < |tokens| ==>
      (tokens[k].Op? ==> tokens[k].op.Times?) && (tokens[k].Num? ==> IsWhole(Value(tokens[k].n)))
  }

  ghost predicate AllWhole(stack: seq<real>) { forall k :: 0 <= k < |stack| ==> IsWhole(stack[k]) }

  lemma WholeProduct(x: real, y: real)
    requires IsWhole(x) && IsWhole(y)
    ensures IsWhole(x * y)
  {
    var a, b := x.Floor, y.Floor;
    ProductOfWholes(a, b);
    assert x * y == (a * b) as real;
  }

  lemma ProductOfWholes(a: int, b: int)
    ensures a as real * b as real == (a * b) as real
  {
  }

  ghost predicate WholeSizes(sizes: RealSizes) {
    forall r :: r in sizes ==> IsWhole(sizes[r].w) && IsWhole(sizes[r].h)
  }

  lemma {:induction false} WholeRun(stack: seq<real>, tokens: seq<Token>, sizes: RealSizes, env: Env)
    requires WholeSizes(sizes) && AllWhole(stack) && WholeTokens(tokens) && Run(stack, tokens, sizes, env).Some?
    ensures AllWhole(Run(stack, tokens, sizes, env).value)
    decreases |tokens|
  {
    hide Value, IsWhole;
    if tokens != [] {
      WholeStep(stack, tokens[0], sizes, env);
      WholeRun(RunStep(stack, tokens[0], sizes, env).value, tokens[1..], sizes, env);
    }
  }

  lemma WholeInt(i: int)
    ensures IsWhole(i as real)
  {
  }

  lemma WholeReals(sizes: Sizes)
    ensures WholeSizes(Reals(sizes))
  {
    forall r | r in sizes ensures IsWhole(Reals(sizes)[r].w) && IsWhole(Reals(sizes)[r].h) {
      WholeInt(sizes[r].w);
      WholeInt(sizes[r].h);
    }
  }

  lemma WholeApply(x: real, y: real)
    requires IsWhole(x) && IsWhole(y)
    ensures Apply(Times, x, y).Some? && IsWhole(Apply(Times, x, y).value)
  {
    WholeProduct(x, y);
    var v := Apply(Times, x, y).value;
    assert v == x * y;
  }

  lemma WholeStep(stack: seq<real>, t: Token, sizes: RealSizes, env: Env)
    requires WholeSizes(sizes) && AllWhole(stack) && RunStep(stack, t, sizes, env).Some?
    requires (t.Op? ==> t.op.Times?) && (t.Num? ==> IsWhole(Value(t.n)))
    ensures AllWhole(RunStep(stack, t, sizes, env).value)
  {
    hide Value, IsWhole;
    match t {
      case Op(op) =>
        var x, y := stack[|stack| - 2], stack[|stack| - 1];
        WholeApply(x, y);
      case Num(n) =>
      case Size(resource, a) =>
        WholeInt(env.target.On(a));
      case Junk =>
    }
  }

  lemma {:induction false} WholeRoundsNothing(passes: seq<Pass>, sizes: Sizes, result: string, env: Env)
    requires RunPasses(passes, sizes, result, env).Some?
    requires forall p :: p in passes ==> WholeTokens(p.width) && WholeTokens(p.height)
    ensures RoundsNothing(passes, sizes, result, env)
  {
    hide Run, WholeTokens, LlRound, Kept;
    if passes != [] {
      var p := passes[0];
      assert p in passes;
      WholeReals(sizes);
      WholeRun([], p.width, Reals(sizes), env);
      WholeRun([], p.height, Reals(sizes), env);
      WholeRoundsNothing(passes[1..], Kept(sizes, p, OutputSize(p, sizes, env).value, passes[1..], result), result, env);
    }
  }

  /** For such pass lists the analysis is sound on every run the renderer can plan. */
  lemma WholePassesSound(passes: seq<Pass>, result: string, env: Env)
    requires TokenPasses(passes)
    requires forall p :: p in passes ==> WholeTokens(p.width) && WholeTokens(p.height)
    requires PlansFrom(passes, INITIAL).Some? && RunPasses(passes, StartSizes(env), result, env).Some?
    ensures |PlansFrom(passes, INITIAL).value| == |RunPasses(passes, StartSizes(env), result, env).value| == |passes|
    ensures forall k :: 0 <= k < |passes| ==>
              LoadsAreSafe(passes[k], PlansFrom(passes, INITIAL).value[k],
                           RunPasses(passes, StartSizes(env), result, env).value[k])
  {
    WholeRoundsNothing(passes, StartSizes(env), result, env);
    AnalysisSound(passes, result, env);
  }

  // ---- when it does interfere -----------------------------------------------------------------------

  const TWO := Numeral("", [2], false, [], NoExponent)

  function Saving(name: string, bindings: seq<string>, width: seq<Token>, used: set<string>): Pass {
    Pass("MAIN", bindings, Some(name), width, [Size("MAIN", H)], used, used, {})
  }

  const HALF_OF_MAIN: seq<Token> := [Size("MAIN", W), Num(TWO), Op(Over)]
  const MAIN_HALVED_DOUBLED: seq<Token> := [Size("MAIN", W), Num(TWO), Op(Over), Num(TWO), Op(Times)]
  const TWICE_HALF: seq<Token> := [Size("HALF", W), Num(TWO), Op(Times)]

  /** HALF = MAIN / 2, FULL = MAIN / 2 * 2, and a pass of size HALF * 2 that reads FULL. */
  function HalvingPasses(): seq<Pass> {
    [Saving("HALF", ["MAIN"], HALF_OF_MAIN, {}),
     Saving("FULL", ["MAIN"], MAIN_HALVED_DOUBLED, {}),
     Saving("OUT", ["FULL", "HALF", "MAIN"], TWICE_HALF, {"FULL"})]
  }

  lemma TwoIsTwo()
    ensures Value(TWO) == 2.0 && Canon(TWO) == TWO && !IsOne(TWO) && IsToken(TWO)
  {
    assert Whole([2]) == 2 by { assert [2 as Digit][..0] == []; }
  }

  lemma RunCons(stack: seq<real>, t: Token, rest: seq<Token>, next: seq<real>, sizes: RealSizes, env: Env)
    requires RunStep(stack, t, sizes, env) == Some(next)
    ensures Run(stack, [t] + rest, sizes, env) == Run(next, rest, sizes, env)
  {
  }

  lemma SymCons(stack: seq<Sym>, t: Token, rest: seq<Token>, next: seq<Sym>, dims: SymDims)
    requires SymStep(stack, t, W, dims) == Some(next)
    ensures SymRun(stack, [t] + rest, W, dims) == SymRun(next, rest, W, dims)
  {
  }

  /** x / 2 and x * 2 on top of a one-element stack. */
  lemma RunByTwo(x: real, op: Operator, rest: seq<Token>, sizes: RealSizes, env: Env)
    requires op != Greater
    ensures Run([x], [Num(TWO)] + ([Op(op)] + rest), sizes, env)
            == Run([if op.Over? then x / 2.0 else x * 2.0], rest, sizes, env)
  {
    TwoIsTwo();
    hide Value;
    assert [x] + [2.0] == [x, 2.0];
    RunCons([x], Num(TWO), [Op(op)] + rest, [x, 2.0], sizes, env);
    var y := if op.Over? then x / 2.0 else x * 2.0;
    assert [x, 2.0][..0] + [y] == [y];
    RunCons([x, 2.0], Op(op), rest, [y], sizes, env);
  }

  lemma SymByTwo(e: Sym, op: Operator, rest: seq<Token>, dims: SymDims)
    requires op != Greater && !(e.Constant? && IsOne(e.n))
    ensures SymRun([e], [Num(TWO)] + ([Op(op)] + rest), W, dims) == SymRun([Bin(op, e, Constant(TWO))], rest, W, dims)
  {
    TwoIsTwo();
    hide Canon;
    assert [e] + [Constant(TWO)] == [e, Constant(TWO)];
    SymCons([e], Num(TWO), [Op(op)] + rest, [e, Constant(TWO)], dims);
    var b := Bin(op, e, Constant(TWO));
    assert [e, Constant(TWO)][..0] + [b] == [b];
    SymCons([e, Constant(TWO)], Op(op), rest, [b], dims);
  }

  lemma RunSize(name: string, rest: seq<Token>, sizes: Sizes, env: Env)
    requires name in sizes && name != "OUTPUT"
    ensures Run([], [Size(name, W)] + rest, Reals(sizes), env) == Run([sizes[name].w as real], rest, Reals(sizes), env)
  {
    assert [] + [sizes[name].w as real] == [sizes[name].w as real];
    RunCons([], Size(name, W), rest, [sizes[name].w as real], Reals(sizes), env);
  }

  lemma SymSize(name: string, rest: seq<Token>, dims: SymDims)
    requires name in dims && name != "OUTPUT"
    ensures SymRun([], [Size(name, W)] + rest, W, dims) == SymRun([dims[name].w], rest, W, dims)
  {
    assert [] + [dims[name].w] == [dims[name].w];
    SymCons([], Size(name, W), rest, [dims[name].w], dims);
  }

  lemma HalvingRuns(sizes: Sizes, env: Env)
    requires "MAIN" in sizes
    ensures EvaluateRpn(HALF_OF_MAIN, sizes, env) == Some(sizes["MAIN"].w as real / 2.0)
    ensures EvaluateRpn(MAIN_HALVED_DOUBLED, sizes, env) == Some(sizes["MAIN"].w as real)
    ensures "HALF" in sizes ==> EvaluateRpn(TWICE_HALF, sizes, env) == Some(sizes["HALF"].w as real * 2.0)
    ensures EvaluateRpn([Size("MAIN", H)], sizes, env) == Some(sizes["MAIN"].h as real)
  {
    var x := sizes["MAIN"].w as real;
    var tail := [Num(TWO)] + ([Op(Times)] + []);
    assert HALF_OF_MAIN == [Size("MAIN", W)] + ([Num(TWO)] + ([Op(Over)] + []));
    assert MAIN_HALVED_DOUBLED == [Size("MAIN", W)] + ([Num(TWO)] + ([Op(Over)] + tail));
    assert TWICE_HALF == [Size("HALF", W)] + tail;
    RunSize("MAIN", [Num(TWO)] + ([Op(Over)] + []), sizes, env);
    RunSize("MAIN", [Num(TWO)] + ([Op(Over)] + tail), sizes, env);
    RunByTwo(x, Over, [], Reals(sizes), env);
    RunByTwo(x, Over, tail, Reals(sizes), env);
    RunByTwo(x / 2.0, Times, [], Reals(sizes), env);
    if "HALF" in sizes {
      RunSize("HALF", tail, sizes, env);
      RunByTwo(sizes["HALF"].w as real, Times, [], Reals(sizes), env);
    }
    assert [] + [sizes["MAIN"].h as real] == [sizes["MAIN"].h as real];
  }

  lemma HalvingSymbols(dims: SymDims)
    requires "MAIN" in dims && dims["MAIN"] == Pair(Input(W), Input(H))
    ensures var half := Bin(Over, Input(W), Constant(TWO));
      && SymEval(HALF_OF_MAIN, W, dims) == Some(half)
      && SymEval(MAIN_HALVED_DOUBLED, W, dims) == Some(Bin(Times, half, Constant(TWO)))
      && ("HALF" in dims && dims["HALF"].w == half ==>
            SymEval(TWICE_HALF, W, dims) == Some(Bin(Times, half, Constant(TWO))))
      && SymEval([Size("MAIN", H)], H, dims) == Some(Input(H))
  {
    var half := Bin(Over, Input(W), Constant(TWO));
    var tail := [Num(TWO)] + ([Op(Times)] + []);
    assert HALF_OF_MAIN == [Size("MAIN", W)] + ([Num(TWO)] + ([Op(Over)] + []));
    assert MAIN_HALVED_DOUBLED == [Size("MAIN", W)] + ([Num(TWO)] + ([Op(Over)] + tail));
    assert TWICE_HALF == [Size("HALF", W)] + tail;
    SymSize("MAIN", [Num(TWO)] + ([Op(Over)] + []), dims);
    SymSize("MAIN", [Num(TWO)] + ([Op(Over)] + tail), dims);
    SymByTwo(Input(W), Over, [], dims);
    SymByTwo(Input(W), Over, tail, dims);
    SymByTwo(half, Times, [], dims);
    if "HALF" in dims && dims["HALF"].w == half {
      SymSize("HALF", tail, dims);
    }
    assert [] + [Input(H)] == [Input(H)];
  }

  function HalvingDims(k: nat): SymDims {
    var half := Bin(Over, Input(W), Constant(TWO));
    if k == 0 then INITIAL
    else if k == 1 then INITIAL["HALF" := Pair(half, Input(H))]
    else INITIAL["HALF" := Pair(half, Input(H))]["FULL" := Pair(Bin(Times, half, Constant(TWO)), Input(H))]
  }

  /** The generator plans the three passes and marks FULL for integer loads in the last. */
  lemma HalvingPlanned()
    ensures var plans := PlansFrom(HalvingPasses(), INITIAL);
      plans.Some? && |plans.value| == 3 && "FULL" in plans.value[2].texOffLoads
  {
    var ps := HalvingPasses();
    HalvingSymbols(HalvingDims(0));
    HalvingSymbols(HalvingDims(1));
    HalvingSymbols(HalvingDims(2));
    hide SymEval;
    assert PassAccepted(ps[0], HalvingDims(0)) && PassAccepted(ps[1], HalvingDims(1)) && PassAccepted(ps[2], HalvingDims(2));
    assert Bound(ps[2], "FULL") == Some("FULL");
    assert SameSize(ps[2], HalvingDims(2), "FULL");
    assert "FULL" in PlanFor(ps[2], HalvingDims(2)).texOffLoads;
    var t1, t2, t3 := ps[1..], ps[2..], ps[3..];
    assert t1[0] == ps[1] && t1[1..] == t2 && t2[0] == ps[2] && t2[1..] == t3 == [];
    assert Destination(ps[0]) == "HALF" && Destination(ps[1]) == "FULL";
    PlansCons(ps[2], t3, HalvingDims(2));
    PlansCons(ps[1], t2, HalvingDims(1));
    PlansCons(ps[0], t1, HalvingDims(0));
    assert ps == [ps[0]] + t1 && t1 == [ps[1]] + t2 && t2 == [ps[2]] + t3;
  }

  lemma PlansCons(p: Pass, later: seq<Pass>, dims: SymDims)
    requires PassAccepted(p, dims)
    ensures var rest := PlansFrom(later, dims[Destination(p) := OutputDims(p, dims).value]);
      PlansFrom([p] + later, dims) == if rest.None? then None else Some([PlanFor(p, dims)] + rest.value)
  {
    hide PassAccepted, PlanFor;
    assert ([p] + later)[0] == p && ([p] + later)[1..] == later;
  }

  lemma RunPassesCons(p: Pass, later: seq<Pass>, sizes: Sizes, result: string, env: Env, out: Pair<int>)
    requires OutputSize(p, sizes, env) == Some(out)
    requires 0 < |p.bindings| <= MAX_INPUTS && forall b :: b in p.bindings ==> b in sizes
    ensures var rest := RunPasses(later, Kept(sizes, p, out, later, result), result, env);
      RunPasses([p] + later, sizes, result, env) == if rest.None? then None else Some([Ran(sizes, out)] + rest.value)
  {
    hide OutputSize, Kept;
    assert ([p] + later)[0] == p && ([p] + later)[1..] == later;
  }

  function Doubled(w: int): int { if w % 2 == 0 then w else w + 1 }

  lemma RoundHalf(w: nat)
    ensures LlRound(w as real / 2.0) * 2 == Doubled(w)
    ensures LlRound(w as real) == w
  {
    var k := w / 2;
    if w % 2 == 0 {
      FloorIs(w as real / 2.0 + 0.5, k);
    } else {
      FloorIs(w as real / 2.0 + 0.5, k + 1);
    }
    FloorIs(w as real + 0.5, w);
  }

  lemma HalvingOutputs(sizes: Sizes, env: Env, w: nat, h: nat)
    requires "MAIN" in sizes && sizes["MAIN"] == Pair(w, h) && 0 < w < MAX_TEXTURE && 0 < h <= MAX_TEXTURE
    ensures var ps, half := HalvingPasses(), LlRound(w as real / 2.0);
      && OutputSize(ps[0], sizes, env) == Some(Pair(half, h))
      && OutputSize(ps[1], sizes, env) == Some(Pair(w as int, h as int))
      && ("HALF" in sizes && sizes["HALF"].w == half ==> OutputSize(ps[2], sizes, env) == Some(Pair(Doubled(w), h)))
  {
    var ps, half := HalvingPasses(), LlRound(w as real / 2.0);
    HalvingRuns(sizes, env);
    RoundHalf(w);
    RoundHalf(h);
    RoundHalf(Doubled(w));
    assert half as real * 2.0 == Doubled(w) as real;
    hide LlRound, EvaluateRpn;
  }

  /** The sizes the k-th of the three passes finds. */
  function HalvingState(k: nat, env: Env): Sizes
    requires k <= 2
  {
    var ps, half := HalvingPasses(), LlRound(env.input.w as real / 2.0);
    if k == 0 then StartSizes(env)
    else if k == 1 then Kept(StartSizes(env), ps[0], Pair(half, env.input.h), ps[1..], "MAIN")
    else Kept(HalvingState(1, env), ps[1], env.input, ps[2..], "MAIN")
  }

  lemma HalvingStates(env: Env)
    ensures var half := LlRound(env.input.w as real / 2.0);
      var s0, s1, s2 := HalvingState(0, env), HalvingState(1, env), HalvingState(2, env);
      && "MAIN" in s0 && s0["MAIN"] == env.input
      && "MAIN" in s1 && s1["MAIN"] == env.input && "HALF" in s1 && s1["HALF"].w == half
      && "MAIN" in s2 && s2["MAIN"] == env.input && "HALF" in s2 && s2["HALF"].w == half
      && "FULL" in s2 && s2["FULL"] == env.input
  {
    hide LlRound;
    var ps := HalvingPasses();
    assert ps[2] in ps[1..] && ps[2] in ps[2..];
    assert "HALF" in ps[2].bindings && "MAIN" in ps[2].bindings && "FULL" in ps[2].bindings;
  }

  /** What the renderer makes of them: FULL keeps the source width, the last pass rounds up. */
  lemma HalvingExecuted(env: Env)
    requires 0 < env.input.w < MAX_TEXTURE && 0 < env.input.h <= MAX_TEXTURE
    ensures var run := RunPasses(HalvingPasses(), StartSizes(env), "MAIN", env);
      && run.Some? && |run.value| == 3
      && "FULL" in run.value[2].sizes && run.value[2].sizes["FULL"].w == env.input.w
      && run.value[2].output.w == Doubled(env.input.w)
  {
    hide LlRound, OutputSize, Kept;
    var ps, w, h := HalvingPasses(), env.input.w, env.input.h;
    var t1, t2, t3 := ps[1..], ps[2..], ps[3..];
    var s0, s1, s2 := HalvingState(0, env), HalvingState(1, env), HalvingState(2, env);
    var half := LlRound(w as real / 2.0);
    HalvingStates(env);
    HalvingOutputs(s0, env, w, h);
    HalvingOutputs(s1, env, w, h);
    HalvingOutputs(s2, env, w, h);
    hide HalvingState;
    assert s1 == Kept(s0, ps[0], Pair(half, h), t1, "MAIN") && s2 == Kept(s1, ps[1], Pair(w, h), t2, "MAIN") by {
      assert env.input == Pair(w, h);
      HalvingSteps(env);
    }
    RunPassesCons(ps[2], t3, s2, "MAIN", env, Pair(Doubled(w), h));
    RunPassesCons(ps[1], t2, s1, "MAIN", env, Pair(w, h));
    RunPassesCons(ps[0], t1, s0, "MAIN", env, Pair(half, h));
    assert ps == [ps[0]] + t1 && t1 == [ps[1]] + t2 && t2 == [ps[2]] + t3 && t3 == [];
  }

  lemma HalvingSteps(env: Env)
    ensures var ps, half := HalvingPasses(), LlRound(env.input.w as real / 2.0);
      && HalvingState(0, env) == StartSizes(env)
      && HalvingState(1, env) == Kept(HalvingState(0, env), ps[0], Pair(half, env.input.h), ps[1..], "MAIN")
      && HalvingState(2, env) == Kept(HalvingState(1, env), ps[1], env.input, ps[2..], "MAIN")
  {
    hide LlRound, Kept;
  }

  /** Without the rounding condition the analysis is unsound: on this list its claim is true
      of even source widths and false of every odd one. */
  lemma RoundingDecidesTheClaim(env: Env)
    requires 0 < env.input.w < MAX_TEXTURE && 0 < env.input.h <= MAX_TEXTURE
    ensures PlansFrom(HalvingPasses(), INITIAL).Some? && RunPasses(HalvingPasses(), StartSizes(env), "MAIN", env).Some?
    ensures var plan, ran := PlansFrom(HalvingPasses(), INITIAL).value, RunPasses(HalvingPasses(), StartSizes(env), "MAIN", env).value;
      && |plan| == 3 && |ran| == 3 && "FULL" in plan[2].texOffLoads && "FULL" in ran[2].sizes
      && (ran[2].sizes["FULL"].w == ran[2].output.w <==> env.input.w % 2 == 0)
  {
    HalvingPlanned();
    HalvingExecuted(env);
  }
}

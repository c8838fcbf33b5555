/** Exactly when the renderer's rounding can contradict the generator: a pass list rounds no readable
    size if and only if no two passes can be spliced around one of its own so that the second is
    misled about the size of the first. */
module SplicedPasses {
  import opened Numerals
  import opened DimensionAnalysis
  import opened DimensionSoundness
  import opened Wrappers

  // ---- splicing ---------------------------------------------------------------------------------------

  /** y before the k-th pass, z after it. */
  function Spliced(passes: seq<Pass>, k: nat, y: Pass, z: Pass): seq<Pass>
    requires k < |passes|
  {
    passes[..k] + [y, passes[k], z] + passes[k + 1..]
  }

  predicate Reads(tokens: seq<Token>, name: string) {
    exists t :: t in tokens && t.Size? && t.resource == name
  }

  predicate Mentions(p: Pass, name: string) {
    name in p.bindings || name == Destination(p) || Reads(p.width, name) || Reads(p.height, name)
  }

  /** The pass loads `name` by integer coordinates although its size is not the output's. */
  ghost predicate MisledBy(p: Pass, plan: Plan, ran: Ran, name: string) {
    exists n :: n in plan.currentLoads + plan.texOffLoads && Bound(p, n) == Some(name)
      && !(name in ran.sizes && ran.sizes[name] == ran.output)
  }

  /** The list is planned and runs, and its i-th pass is misled about `name`. */
  ghost predicate Misled(passes: seq<Pass>, i: nat, name: string, dims: SymDims, sizes: Sizes, result: string, env: Env)
    requires i < |passes|
  {
    var plans, run := PlansFrom(passes, dims), RunPasses(passes, sizes, result, env);
    && plans.Some? && run.Some? && i < |plans.value| && i < |run.value|
    && MisledBy(passes[i], plans.value[i], run.value[i], name)
  }

  /** The pass is planned, has a size and finds its inputs. */
  ghost predicate Ready(p: Pass, dims: SymDims, sizes: Sizes, env: Env) {
    && PassAccepted(p, dims) && OutputSize(p, sizes, env).Some?
    && 0 < |p.bindings| <= MAX_INPUTS && forall b :: b in p.bindings ==> b in sizes
  }

  ghost function DimsAfter(p: Pass, dims: SymDims): SymDims
    requires OutputDims(p, dims).Some?
  {
    dims[Destination(p) := OutputDims(p, dims).value]
  }

  function SizesAfter(p: Pass, later: seq<Pass>, sizes: Sizes, result: string, env: Env): Sizes
    requires OutputSize(p, sizes, env).Some?
  {
    Kept(sizes, p, OutputSize(p, sizes, env).value, later, result)
  }

  lemma MisledLater(passes: seq<Pass>, i: nat, name: string, dims: SymDims, sizes: Sizes, result: string, env: Env)
    requires 0 < i < |passes|
    ensures Misled(passes, i, name, dims, sizes, result, env)
            <==> (Ready(passes[0], dims, sizes, env)
                  && Misled(passes[1..], i - 1, name, DimsAfter(passes[0], dims),
                            SizesAfter(passes[0], passes[1..], sizes, result, env), result, env))
  {
    hide PassAccepted, OutputSize, Kept, PlanFor, MisledBy;
  }

  lemma MisledHere(passes: seq<Pass>, name: string, dims: SymDims, sizes: Sizes, result: string, env: Env)
    requires 0 < |passes|
    ensures Misled(passes, 0, name, dims, sizes, result, env)
            <==> (Ready(passes[0], dims, sizes, env)
                  && PlansFrom(passes[1..], DimsAfter(passes[0], dims)).Some?
                  && RunPasses(passes[1..], SizesAfter(passes[0], passes[1..], sizes, result, env), result, env).Some?
                  && MisledBy(passes[0], PlanFor(passes[0], dims),
                              Ran(sizes, OutputSize(passes[0], sizes, env).value), name))
  {
    hide PassAccepted, OutputSize, Kept, PlanFor, MisledBy;
  }

  lemma SplicedTail(passes: seq<Pass>, k: nat, y: Pass, z: Pass)
    requires k < |passes|
    ensures var qs := Spliced(passes, k, y, z);
      && |qs| == |passes| + 2
      && (k > 0 ==> qs[0] == passes[0] && qs[1..] == Spliced(passes[1..], k - 1, y, z))
      && (k == 0 ==> (qs[0] == y && qs[1..] == [passes[0], z] + passes[1..]
                      && qs[1..][1..] == [z] + passes[1..] && qs[1..][1..][1..] == passes[1..]))
  {
    var qs := Spliced(passes, k, y, z);
    if k > 0 {
      assert passes[1..][..k - 1] == passes[1..k] && passes[1..][k - 1] == passes[k] && passes[1..][k..] == passes[k + 1..];
      assert qs[1..] == passes[1..k] + [y, passes[k], z] + passes[k + 1..];
    } else {
      assert qs == [y, passes[0], z] + passes[1..];
    }
  }

  lemma ThreeAhead(y: Pass, p: Pass, z: Pass, later: seq<Pass>)
    ensures var qs := [y, p, z] + later;
      && qs[0] == y && qs[1..] == [p, z] + later
      && qs[1..][0] == p && qs[1..][1..] == [z] + later
      && qs[1..][1..][0] == z && qs[1..][1..][1..] == later
  {
  }

  // ---- expressions see only what they read ------------------------------------------------------------

  lemma {:induction false} RunGrows(stack: seq<real>, tokens: seq<Token>, a: RealSizes, b: RealSizes, env: Env)
    requires Run(stack, tokens, a, env).Some?
    requires forall r :: r in a && Reads(tokens, r) ==> r in b && b[r] == a[r]
    ensures Run(stack, tokens, b, env) == Run(stack, tokens, a, env)
    decreases |tokens|
  {
    hide Apply, Value;
    if tokens != [] {
      var t := tokens[0];
      assert t in tokens;
      assert t.Size? ==> Reads(tokens, t.resource);
      assert RunStep(stack, t, b, env) == RunStep(stack, t, a, env);
      forall r | r in a && Reads(tokens[1..], r) ensures r in b && b[r] == a[r] {
        assert Reads(tokens, r);
      }
      RunGrows(RunStep(stack, t, a, env).value, tokens[1..], a, b, env);
    }
  }

  lemma {:induction false} RunSame(stack: seq<real>, tokens: seq<Token>, a: RealSizes, b: RealSizes, env: Env)
    requires Run(stack, tokens, a, env).Some? && Run(stack, tokens, b, env).Some?
    requires forall r :: r in a && r in b ==> b[r] == a[r]
    ensures Run(stack, tokens, b, env) == Run(stack, tokens, a, env)
    decreases |tokens|
  {
    hide Apply, Value;
    if tokens != [] {
      assert RunStep(stack, tokens[0], b, env) == RunStep(stack, tokens[0], a, env);
      RunSame(RunStep(stack, tokens[0], a, env).value, tokens[1..], a, b, env);
    }
  }

  ghost predicate Extends<T>(a: map<string, T>, b: map<string, T>) {
    forall r :: r in a ==> r in b && b[r] == a[r]
  }

  ghost predicate Compatible(a: Sizes, b: Sizes) {
    forall r :: r in a && r in b ==> b[r] == a[r]
  }

  lemma OutputGrows(p: Pass, a: Sizes, b: Sizes, env: Env)
    requires OutputSize(p, a, env).Some?
    requires forall r :: r in a && (Reads(p.width, r) || Reads(p.height, r)) ==> r in b && b[r] == a[r]
    ensures EvaluateRpn(p.width, b, env) == EvaluateRpn(p.width, a, env)
    ensures EvaluateRpn(p.height, b, env) == EvaluateRpn(p.height, a, env)
    ensures OutputSize(p, b, env) == OutputSize(p, a, env)
  {
    hide Run, LlRound, Reads;
    RunGrows([], p.width, Reals(a), Reals(b), env);
    RunGrows([], p.height, Reals(a), Reals(b), env);
  }

  lemma OutputSame(p: Pass, a: Sizes, b: Sizes, env: Env)
    requires OutputSize(p, a, env).Some? && OutputSize(p, b, env).Some? && Compatible(a, b)
    ensures EvaluateRpn(p.width, b, env) == EvaluateRpn(p.width, a, env)
    ensures EvaluateRpn(p.height, b, env) == EvaluateRpn(p.height, a, env)
  {
    hide Run, LlRound;
    RunSame([], p.width, Reals(a), Reals(b), env);
    RunSame([], p.height, Reals(a), Reals(b), env);
  }

  lemma {:induction false} SymGrows(stack: seq<Sym>, tokens: seq<Token>, axis: Axis, a: SymDims, b: SymDims)
    requires SymRun(stack, tokens, axis, a).Some? && Extends(a, b)
    ensures SymRun(stack, tokens, axis, b) == SymRun(stack, tokens, axis, a)
    decreases |tokens|
  {
    hide Canon, Combine;
    if tokens != [] {
      assert SymStep(stack, tokens[0], axis, b) == SymStep(stack, tokens[0], axis, a);
      SymGrows(SymStep(stack, tokens[0], axis, a).value, tokens[1..], axis, a, b);
    }
  }

  lemma AcceptedGrows(p: Pass, a: SymDims, b: SymDims)
    requires PassAccepted(p, a) && Extends(a, b)
    ensures PassAccepted(p, b) && OutputDims(p, a).Some? && OutputDims(p, b) == OutputDims(p, a)
  {
    hide SymRun;
    SymGrows([], p.width, W, a, b);
    SymGrows([], p.height, H, a, b);
  }

  lemma {:induction false} PlansGrow(passes: seq<Pass>, a: SymDims, b: SymDims)
    requires PlansFrom(passes, a).Some? && Extends(a, b)
    ensures PlansFrom(passes, b).Some?
  {
    hide PassAccepted, OutputDims, PlanFor;
    if passes != [] {
      AcceptedGrows(passes[0], a, b);
      var out := OutputDims(passes[0], a).value;
      PlansGrow(passes[1..], a[Destination(passes[0]) := out], b[Destination(passes[0]) := out]);
    }
  }

  lemma {:induction false} PassesGrow(passes: seq<Pass>, a: Sizes, b: Sizes, result: string, env: Env)
    requires RunPasses(passes, a, result, env).Some? && Extends(a, b)
    ensures RunPasses(passes, b, result, env).Some?
  {
    hide OutputSize, Retained;
    if passes != [] {
      var p := passes[0];
      OutputGrows(p, a, b, env);
      var out := OutputSize(p, a, env).value;
      PassesGrow(passes[1..], Kept(a, p, out, passes[1..], result), Kept(b, p, out, passes[1..], result), result, env);
    }
  }

  // ---- where nothing is rounded, nobody is misled -----------------------------------------------------

  function Nodes(e: Sym): nat {
    match e
    case Bin(_, l, r) => 1 + Nodes(l) + Nodes(r)
    case _ => 1
  }

  /** With one resource of symbolic size s whose real size r need not be a value of s: an entry that
      never touched it, one that strictly contains s, or that very size. */
  ghost predicate Holds(e: Sym, v: real, s: Sym, r: real, env: Env) {
    Realises(e, v, env) || Nodes(e) > Nodes(s) || (e == s && v == r)
  }

  ghost predicate StackHolds(sym: seq<Sym>, stack: seq<real>, s: Sym, r: real, env: Env) {
    |sym| == |stack| && forall k :: 0 <= k < |sym| ==> Holds(sym[k], stack[k], s, r, env)
  }

  /** The odd size is harmless where its symbol is the constant 1, which is dropped from products. */
  predicate UnitIsOne(s: Sym, r: real) { s.Constant? && IsOne(s.n) ==> r == 1.0 }

  lemma UnitHolds(e: Sym, v: real, s: Sym, r: real, env: Env)
    requires Holds(e, v, s, r, env) && UnitIsOne(s, r) && e.Constant? && IsOne(e.n)
    ensures v == 1.0
  {
    if Realises(e, v, env) { OneRealises(e, v, env); }
  }

  lemma CombineHolds(op: Operator, l: Sym, m: Sym, x: real, y: real, v: real, s: Sym, r: real, env: Env)
    requires Holds(l, x, s, r, env) && Holds(m, y, s, r, env) && UnitIsOne(s, r) && Apply(op, x, y) == Some(v)
    ensures Holds(Combine(op, l, m), v, s, r, env)
  {
    hide Realises, UnitIsOne;
    if m.Constant? && IsOne(m.n) { UnitHolds(m, y, s, r, env); }
    if l.Constant? && IsOne(l.n) { UnitHolds(l, x, s, r, env); }
    if Realises(l, x, env) && Realises(m, y, env) { CombineRealises(op, l, m, x, y, v, env); }
  }

  /** Only the resource n may have a size that is not a value of its symbol. */
  ghost predicate StandBut(n: string, axis: Axis, dims: SymDims, sizes: RealSizes, s: Sym, r: real, env: Env) {
    && Stand(dims, sizes - {n}, env)
    && (n in sizes ==> n in dims && dims[n].On(axis) == s && sizes[n].On(axis) == r)
  }

  lemma StepHolds(sym: seq<Sym>, stack: seq<real>, t: Token, axis: Axis, n: string,
                  dims: SymDims, sizes: RealSizes, s: Sym, r: real, env: Env)
    requires StackHolds(sym, stack, s, r, env) && StandBut(n, axis, dims, sizes, s, r, env) && UnitIsOne(s, r)
    requires t.Num? ==> IsToken(t.n)
    requires SymStep(sym, t, axis, dims).Some? && RunStep(stack, t, sizes, env).Some?
    ensures StackHolds(SymStep(sym, t, axis, dims).value, RunStep(stack, t, sizes, env).value, s, r, env)
  {
    hide Value, Canon, Combine, Apply, IsToken, UnitIsOne, Nodes;
    match t {
      case Op(op) =>
        var x, y := stack[|stack| - 2], stack[|stack| - 1];
        CombineHolds(op, sym[|sym| - 2], sym[|sym| - 1], x, y, Apply(op, x, y).value, s, r, env);
        hide Holds;
      case Num(m) =>
        assert Realises(Constant(Canon(m)), Value(m), env);
      case Size(resource, a) =>
        if resource != "OUTPUT" && resource != n { assert resource in sizes - {n}; }
      case Junk =>
    }
  }

  lemma {:induction false} RunHolds(sym: seq<Sym>, stack: seq<real>, tokens: seq<Token>, axis: Axis, n: string,
                                    dims: SymDims, sizes: RealSizes, s: Sym, r: real, env: Env)
    requires StackHolds(sym, stack, s, r, env) && StandBut(n, axis, dims, sizes, s, r, env) && UnitIsOne(s, r)
    requires Tokens(tokens)
    requires SymRun(sym, tokens, axis, dims).Some? && Run(stack, tokens, sizes, env).Some?
    ensures StackHolds(SymRun(sym, tokens, axis, dims).value, Run(stack, tokens, sizes, env).value, s, r, env)
    decreases |tokens|
  {
    hide IsToken, StackHolds, StandBut, UnitIsOne;
    if tokens != [] {
      StepHolds(sym, stack, tokens[0], axis, n, dims, sizes, s, r, env);
      RunHolds(SymStep(sym, tokens[0], axis, dims).value, RunStep(stack, tokens[0], sizes, env).value,
               tokens[1..], axis, n, dims, sizes, s, r, env);
    }
  }

  /** An expression with the odd resource's symbolic size has one of its sizes too. */
  lemma SameSymbolSameRound(tokens: seq<Token>, axis: Axis, n: string, dims: SymDims, sizes: Sizes, s: Sym, o: int, env: Env)
    requires Stand(dims, Reals(sizes) - {n}, env) && Tokens(tokens)
    requires n in sizes && n in dims && dims[n].On(axis) == s && sizes[n].On(axis) == o
    requires Rounded(s, o, env) && 0 < o <= MAX_TEXTURE
    requires SymEval(tokens, axis, dims) == Some(s) && EvaluateRpn(tokens, sizes, env).Some?
    requires 0 < LlRound(EvaluateRpn(tokens, sizes, env).value) <= MAX_TEXTURE
    ensures LlRound(EvaluateRpn(tokens, sizes, env).value) == o
  {
    UnitRounds(s, o, env);
    RoundExact(o as real);
    hide LlRound, Realises, UnitIsOne, Stand;
    RunHolds([], [], tokens, axis, n, dims, Reals(sizes), s, o as real, env);
    var v := EvaluateRpn(tokens, sizes, env).value;
    assert Holds(s, v, s, o as real, env);
    if Realises(s, v, env) {
      assert Rounded(s, LlRound(v), env);
      SameSymbolSameSize(s, LlRound(v), o, env);
    }
  }

  lemma UnitRounds(s: Sym, o: int, env: Env)
    requires Rounded(s, o, env)
    ensures UnitIsOne(s, o as real)
  {
    if s.Constant? && IsOne(s.n) {
      var v :| Realises(s, v, env) && LlRound(v) == o;
      OneRealises(s, v, env);
    }
  }

  /** All sizes but those saved as n come from their symbols; n's is its symbol's, rounded. */
  ghost predicate AgreesBut(n: string, dims: SymDims, sizes: Sizes, sym: Pair<Sym>, size: Pair<int>, env: Env) {
    && Agrees(dims, sizes - {n}, env)
    && (n in sizes ==> n in dims && dims[n] == sym && sizes[n] == size)
  }

  lemma StandsBut(n: string, dims: SymDims, sizes: Sizes, env: Env)
    requires Agrees(dims, sizes - {n}, env)
    ensures Stand(dims, Reals(sizes) - {n}, env)
  {
    hide Realises, Rounded;
    forall r | r in Reals(sizes) - {n} && r != "OUTPUT"
      ensures r in dims && Realises(dims[r].w, sizes[r].w as real, env) && Realises(dims[r].h, sizes[r].h as real, env)
    {
      assert r in sizes - {n};
    }
  }

  /** After y: its size is its symbol's, rounded, and all others agree. */
  lemma AfterFirst(y: Pass, later: seq<Pass>, dims: SymDims, sizes: Sizes, result: string, env: Env)
    requires Agrees(dims, sizes, env) && Ready(y, dims, sizes, env) && Tokens(y.width) && Tokens(y.height)
    ensures var sym, size := OutputDims(y, dims).value, OutputSize(y, sizes, env).value;
      && Rounded(sym.w, size.w, env) && Rounded(sym.h, size.h, env)
      && AgreesBut(Destination(y), DimsAfter(y, dims), SizesAfter(y, later, sizes, result, env), sym, size, env)
  {
    OutputRounds(y, dims, sizes, env);
    hide OutputDims, OutputSize, Realises, Rounded, Retained;
  }

  lemma OutputWithout(p: Pass, n: string, sizes: Sizes, env: Env)
    requires !Mentions(p, n) && OutputSize(p, sizes, env).Some?
    ensures OutputSize(p, sizes - {n}, env) == OutputSize(p, sizes, env)
  {
    hide OutputSize, Reads;
    OutputGrows(p, sizes, sizes - {n}, env);
  }

  lemma WholeInBoth(p: Pass, a: Sizes, b: Sizes, env: Env)
    requires OutputSize(p, a, env).Some? && OutputSize(p, b, env).Some? && Compatible(a, b) && WholeSize(p, a, env)
    ensures WholeSize(p, b, env)
  {
    hide EvaluateRpn, LlRound, Compatible, IsWhole;
    OutputSame(p, a, b, env);
  }

  lemma KeptWithout(p: Pass, n: string, size: Pair<int>, later: seq<Pass>, sizes: Sizes, result: string)
    requires n != Destination(p)
    ensures Kept(sizes, p, size, later, result) - {n} == Kept(sizes - {n}, p, size, later, result)
    ensures n in Kept(sizes, p, size, later, result) ==> n in sizes && Kept(sizes, p, size, later, result)[n] == sizes[n]
  {
    hide Retained;
  }

  /** A pass that does not mention n, with a whole size, keeps that. */
  lemma AfterOwn(p: Pass, n: string, later: seq<Pass>, dims: SymDims, sizes: Sizes, original: Sizes,
                 sym: Pair<Sym>, size: Pair<int>, result: string, env: Env)
    requires AgreesBut(n, dims, sizes, sym, size, env) && Ready(p, dims, sizes, env)
    requires !Mentions(p, n) && Tokens(p.width) && Tokens(p.height)
    requires Compatible(original, sizes - {n}) && OutputSize(p, original, env).Some?
    requires Destination(p) == "OUTPUT" || WholeSize(p, original, env)
    ensures AgreesBut(n, DimsAfter(p, dims), SizesAfter(p, later, sizes, result, env), sym, size, env)
  {
    hide OutputDims, OutputSize, Agrees, Kept, Reads, Tokens, WholeSize, Compatible, Realises, Rounded;
    var rest := sizes - {n};
    var out := OutputDims(p, dims).value;
    OutputWithout(p, n, sizes, env);
    if Destination(p) != "OUTPUT" { WholeInBoth(p, original, rest, env); }
    OutputRounds(p, dims, rest, env);
    var own := OutputSize(p, rest, env).value;
    KeptAgrees(p, dims, rest, out, own, later, result, env);
    KeptWithout(p, n, own, later, sizes, result);
  }

  /** Then a pass with n's symbolic size gets n's size. */
  lemma NotMisled(z: Pass, n: string, dims: SymDims, sizes: Sizes, sym: Pair<Sym>, size: Pair<int>, env: Env)
    requires AgreesBut(n, dims, sizes, sym, size, env) && Ready(z, dims, sizes, env)
    requires Tokens(z.width) && Tokens(z.height)
    requires Rounded(sym.w, size.w, env) && Rounded(sym.h, size.h, env)
    requires 0 < size.w <= MAX_TEXTURE && 0 < size.h <= MAX_TEXTURE
    ensures !MisledBy(z, PlanFor(z, dims), Ran(sizes, OutputSize(z, sizes, env).value), n)
  {
    forall m | m in PlanFor(z, dims).currentLoads + PlanFor(z, dims).texOffLoads && Bound(z, m) == Some(n)
      ensures n in sizes && sizes[n] == OutputSize(z, sizes, env).value
    {
      hide Rounded, LlRound, EvaluateRpn, SymEval, Tokens;
      StandsBut(n, dims, sizes, env);
      SameSymbolSameRound(z.width, W, n, dims, sizes, sym.w, size.w, env);
      SameSymbolSameRound(z.height, H, n, dims, sizes, sym.h, size.h, env);
    }
  }

  lemma StillCompatible(y: Pass, size: Pair<int>, later: seq<Pass>, original: Sizes, sizes: Sizes, result: string)
    requires Compatible(original, sizes)
    ensures Compatible(original, Kept(sizes, y, size, later, result) - {Destination(y)})
  {
    hide Retained;
  }

  /** y, the list's own pass, z. */
  lemma SpliceIsHonest(y: Pass, p: Pass, z: Pass, later: seq<Pass>, dims: SymDims, sizes: Sizes, original: Sizes,
                       result: string, env: Env)
    requires Tokens(y.width) && Tokens(y.height) && Tokens(p.width) && Tokens(p.height) && Tokens(z.width) && Tokens(z.height)
    requires !Mentions(p, Destination(y))
    requires Agrees(dims, sizes, env) && Compatible(original, sizes) && OutputSize(p, original, env).Some?
    requires Destination(p) == "OUTPUT" || WholeSize(p, original, env)
    ensures !Misled([y, p, z] + later, 2, Destination(y), dims, sizes, result, env)
  {
    var q0, n := [y, p, z] + later, Destination(y);
    var q1, q2 := [p, z] + later, [z] + later;
    assert q0[1..] == q1 && q1[1..] == q2 && q2[1..] == later && q0[0] == y && q1[0] == p && q2[0] == z;
    hide Misled, MisledBy, Agrees, AgreesBut, Mentions, Tokens, Rounded, Compatible, PlanFor, Kept;
    if Misled(q0, 2, n, dims, sizes, result, env) {
      MisledLater(q0, 2, n, dims, sizes, result, env);
      HonestAfterFirst(y, p, z, later, dims, sizes, original, result, env);
    }
  }

  lemma HonestAfterFirst(y: Pass, p: Pass, z: Pass, later: seq<Pass>, dims: SymDims, sizes: Sizes, original: Sizes,
                         result: string, env: Env)
    requires Ready(y, dims, sizes, env)
    requires Tokens(y.width) && Tokens(y.height) && Tokens(p.width) && Tokens(p.height) && Tokens(z.width) && Tokens(z.height)
    requires !Mentions(p, Destination(y))
    requires Agrees(dims, sizes, env) && Compatible(original, sizes) && OutputSize(p, original, env).Some?
    requires Destination(p) == "OUTPUT" || WholeSize(p, original, env)
    ensures var q1 := [p, z] + later;
      !Misled(q1, 1, Destination(y), DimsAfter(y, dims), SizesAfter(y, q1, sizes, result, env), result, env)
  {
    var n, q1, q2 := Destination(y), [p, z] + later, [z] + later;
    assert q1[1..] == q2 && q2[1..] == later && q1[0] == p && q2[0] == z;
    hide Misled, MisledBy, Agrees, AgreesBut, Mentions, Tokens, Rounded, Compatible, PlanFor, Kept, PassAccepted;
    hide EvaluateRpn, LlRound;
    var sym, size := OutputDims(y, dims).value, OutputSize(y, sizes, env).value;
    assert 0 < size.w <= MAX_TEXTURE && 0 < size.h <= MAX_TEXTURE;
    hide OutputSize, OutputDims;
    var d1, s1 := DimsAfter(y, dims), SizesAfter(y, q1, sizes, result, env);
    AfterFirst(y, q1, dims, sizes, result, env);
    StillCompatible(y, size, q1, original, sizes, result);
    MisledLater(q1, 1, n, d1, s1, result, env);
    if Ready(p, d1, s1, env) {
      AfterOwn(p, n, q2, d1, s1, original, sym, size, result, env);
      var d2, s2 := DimsAfter(p, d1), SizesAfter(p, q2, s1, result, env);
      MisledHere(q2, n, d2, s2, result, env);
      if Ready(z, d2, s2, env) { NotMisled(z, n, d2, s2, sym, size, env); }
    }
  }

  lemma HeadKeepsAgreement(p: Pass, dims: SymDims, sizes: Sizes, later: seq<Pass>, original: Sizes, behind: seq<Pass>,
                           result: string, env: Env)
    requires Agrees(dims, sizes, env) && Ready(p, dims, sizes, env) && Tokens(p.width) && Tokens(p.height)
    requires Compatible(original, sizes) && OutputSize(p, original, env).Some?
    requires Destination(p) == "OUTPUT" || WholeSize(p, original, env)
    ensures Agrees(DimsAfter(p, dims), SizesAfter(p, later, sizes, result, env), env)
    ensures Compatible(SizesAfter(p, behind, original, result, env), SizesAfter(p, later, sizes, result, env))
  {
    hide OutputDims, EvaluateRpn, Agrees, Tokens, WholeSize, Realises, Rounded, LlRound, Retained;
    OutputSame(p, original, sizes, env);
    OutputRounds(p, dims, sizes, env);
    if Destination(p) != "OUTPUT" { WholeInBoth(p, original, sizes, env); }
    KeptAgrees(p, dims, sizes, OutputDims(p, dims).value, OutputSize(p, sizes, env).value, later, result, env);
  }

  /** A list that rounds nothing misleads no spliced pass, also when it runs on other sizes than its own. */
  lemma {:induction false} Honest(passes: seq<Pass>, k: nat, y: Pass, z: Pass, dims: SymDims, sizes: Sizes, original: Sizes,
                                  result: string, env: Env)
    requires k < |passes| && TokenPasses(passes) && TokenPasses([y, z]) && !Mentions(passes[k], Destination(y))
    requires Agrees(dims, sizes, env) && Compatible(original, sizes)
    requires RunPasses(passes, original, result, env).Some? && RoundsNothing(passes, original, result, env)
    ensures !Misled(Spliced(passes, k, y, z), k + 2, Destination(y), dims, sizes, result, env)
  {
    hide Misled, Agrees, Compatible, Tokens, Mentions, OutputSize, WholeSize, Kept, Spliced;
    var qs, p := Spliced(passes, k, y, z), passes[0];
    SplicedTail(passes, k, y, z);
    assert p in passes;
    if k == 0 {
      assert y in [y, z] && z in [y, z];
      assert qs == [y, p, z] + passes[1..];
      SpliceIsHonest(y, p, z, passes[1..], dims, sizes, original, result, env);
    } else {
      MisledLater(qs, k + 2, Destination(y), dims, sizes, result, env);
      if Ready(p, dims, sizes, env) {
        HeadKeepsAgreement(p, dims, sizes, qs[1..], original, passes[1..], result, env);
        hide DimsAfter, SizesAfter;
        Honest(passes[1..], k - 1, y, z, DimsAfter(p, dims), SizesAfter(p, qs[1..], sizes, result, env),
               SizesAfter(p, passes[1..], original, result, env), result, env);
      }
    }
  }
}

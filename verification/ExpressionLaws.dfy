/** What size expressions mean: a token list evaluates exactly if it is a tree written in postfix, and then
    to the tree's value; and what a number token is worth. */
module ExpressionLaws {
  import opened Numerals
  import opened DimensionAnalysis
  import opened DimensionSoundness
  import opened Wrappers

  // ---- trees ---------------------------------------------------------------------------------------------

  datatype Expr = Leaf(token: Token) | Node(op: Operator, left: Expr, right: Expr)

  /** Left operand, right operand, operator. */
  function Postfix(e: Expr): seq<Token> {
    match e
    case Leaf(t) => [t]
    case Node(op, l, r) => Postfix(l) + Postfix(r) + [Op(op)]
  }

  /** A number is its value; OUTPUT.w and OUTPUT.h are the target's, other names the sizes in reach. */
  function LeafValue(t: Token, sizes: RealSizes, env: Env): Option<real> {
    match t
    case Num(n) => Some(Value(n))
    case Size(r, a) =>
      if r == "OUTPUT" then Some(if a.W? then env.target.w as real else env.target.h as real)
      else if r in sizes then Some(if a.W? then sizes[r].w else sizes[r].h)
      else None
    case _ => None
  }

  function ValueOf(e: Expr, sizes: RealSizes, env: Env): Option<real> {
    match e
    case Leaf(t) => LeafValue(t, sizes, env)
    case Node(op, l, r) =>
      var x, y := ValueOf(l, sizes, env), ValueOf(r, sizes, env);
      if x.None? || y.None? then None else Result(op, x.value, y.value)
  }

  function Result(op: Operator, left: real, right: real): Option<real> {
    match op
    case Times => Some(left * right)
    case Over => if right == 0.0 then None else Some(left / right)
    case Greater => Some(if left > right then 1.0 else 0.0)
  }

  /** A tree whose leaves are operands. */
  predicate Proper(e: Expr) {
    match e
    case Leaf(t) => t.Num? || t.Size?
    case Node(_, l, r) => Proper(l) && Proper(r)
  }

  lemma {:induction false} RunAppend(stack: seq<real>, a: seq<Token>, b: seq<Token>, sizes: RealSizes, env: Env)
    ensures Run(stack, a + b, sizes, env)
            == match Run(stack, a, sizes, env) case None => None case Some(next) => Run(next, b, sizes, env)
    decreases |a|
  {
    hide RunStep;
    if a == [] {
      assert a + b == b;
    } else {
      assert (a + b)[0] == a[0] && (a + b)[1..] == a[1..] + b;
      match RunStep(stack, a[0], sizes, env) {
        case None =>
        case Some(next) => RunAppend(next, a[1..], b, sizes, env);
      }
    }
  }

  lemma RunOne(stack: seq<real>, t: Token, sizes: RealSizes, env: Env)
    ensures Run(stack, [t], sizes, env) == RunStep(stack, t, sizes, env)
  {
    hide RunStep;
    assert [t][1..] == [];
  }

  lemma OperatorStep(stack: seq<real>, x: real, y: real, op: Operator, sizes: RealSizes, env: Env)
    ensures RunStep((stack + [x]) + [y], Op(op), sizes, env)
            == match Apply(op, x, y) case None => None case Some(v) => Some(stack + [v])
  {
    var s := (stack + [x]) + [y];
    assert s[..|s| - 2] == stack;
  }

  lemma NodeValue(op: Operator, l: Expr, r: Expr, sizes: RealSizes, env: Env)
    ensures var x, y := ValueOf(l, sizes, env), ValueOf(r, sizes, env);
      ValueOf(Node(op, l, r), sizes, env) == if x.None? || y.None? then None else Apply(op, x.value, y.value)
  {
    hide LeafValue, Result, Apply;
    var x, y := ValueOf(l, sizes, env), ValueOf(r, sizes, env);
    if x.Some? && y.Some? { ResultIs(op, x.value, y.value); }
  }

  lemma ResultIs(op: Operator, left: real, right: real)
    ensures Result(op, left, right) == Apply(op, left, right)
  {
  }

  /** On any stack, a proper tree's postfix pushes the tree's value, or fails if it has none. */
  lemma {:induction false} PostfixPushes(stack: seq<real>, e: Expr, sizes: RealSizes, env: Env)
    requires Proper(e)
    ensures Run(stack, Postfix(e), sizes, env)
            == match ValueOf(e, sizes, env) case None => None case Some(v) => Some(stack + [v])
    decreases e
  {
    match e {
      case Leaf(t) =>
        RunOne(stack, t, sizes, env);
        hide Value;
      case Node(op, l, r) =>
        hide RunStep, Run, ValueOf, Apply;
        RunAppend(stack, Postfix(l) + Postfix(r), [Op(op)], sizes, env);
        RunAppend(stack, Postfix(l), Postfix(r), sizes, env);
        PostfixPushes(stack, l, sizes, env);
        NodeValue(op, l, r, sizes, env);
        var x, y := ValueOf(l, sizes, env), ValueOf(r, sizes, env);
        if x.Some? {
          PostfixPushes(stack + [x.value], r, sizes, env);
          if y.Some? {
            RunOne((stack + [x.value]) + [y.value], Op(op), sizes, env);
            OperatorStep(stack, x.value, y.value, op, sizes, env);
          }
        }
    }
  }

  // ---- and back ------------------------------------------------------------------------------------------

  function Spelled(trees: seq<Expr>): seq<Token> {
    if trees == [] then [] else Spelled(trees[..|trees| - 1]) + Postfix(trees[|trees| - 1])
  }

  ghost predicate AllProper(trees: seq<Expr>) { forall i :: 0 <= i < |trees| ==> Proper(trees[i]) }

  /** The stack of a run, as the trees read so far. */
  lemma {:induction false} TreesOf(tokens: seq<Token>, sizes: RealSizes, env: Env) returns (trees: seq<Expr>)
    requires Run([], tokens, sizes, env).Some?
    ensures |trees| == |Run([], tokens, sizes, env).value| && AllProper(trees) && Spelled(trees) == tokens
  {
    hide Run, RunStep, Spelled, AllProper;
    if tokens == [] {
      trees := [];
      NothingRead(sizes, env);
    } else {
      var n := |tokens| - 1;
      var last := tokens[n];
      assert tokens == tokens[..n] + [last];
      RunAppend([], tokens[..n], [last], sizes, env);
      var before := TreesOf(tokens[..n], sizes, env);
      var stack := Run([], tokens[..n], sizes, env).value;
      RunOne(stack, last, sizes, env);
      StackGrows(stack, last, sizes, env);
      if last.Op? {
        trees := before[..|before| - 2] + [Node(last.op, before[|before| - 2], before[|before| - 1])];
        OperatorRead(before, last.op);
      } else {
        trees := before + [Leaf(last)];
        OperandRead(before, last);
      }
    }
  }

  lemma NothingRead(sizes: RealSizes, env: Env)
    ensures Run([], [], sizes, env) == Some([]) && AllProper([]) && Spelled([]) == []
  {
  }

  lemma StackGrows(stack: seq<real>, t: Token, sizes: RealSizes, env: Env)
    requires RunStep(stack, t, sizes, env).Some?
    ensures var next := RunStep(stack, t, sizes, env).value;
      if t.Op? then |stack| >= 2 && |next| == |stack| - 1 else (t.Num? || t.Size?) && |next| == |stack| + 1
  {
    hide Apply, Value;
  }

  lemma OperandRead(trees: seq<Expr>, t: Token)
    requires AllProper(trees) && (t.Num? || t.Size?)
    ensures AllProper(trees + [Leaf(t)]) && Spelled(trees + [Leaf(t)]) == Spelled(trees) + [t]
  {
    assert (trees + [Leaf(t)])[..|trees|] == trees;
  }

  lemma OperatorRead(trees: seq<Expr>, op: Operator)
    requires |trees| >= 2 && AllProper(trees)
    ensures var k := |trees| - 2;
      var read := trees[..k] + [Node(op, trees[k], trees[k + 1])];
      AllProper(read) && Spelled(read) == Spelled(trees) + [Op(op)]
  {
    var k := |trees| - 2;
    var read := trees[..k] + [Node(op, trees[k], trees[k + 1])];
    var rest := trees[..k + 1];
    assert rest[..k] == trees[..k] && read[..k] == trees[..k];
    assert Spelled(trees) == Spelled(trees[..k]) + Postfix(trees[k]) + Postfix(trees[k + 1]);
  }

  /** The evaluator's value of a token list, without its stack: the value of the tree the list spells, which
      is none for a list that spells no tree. */
  lemma EvaluatesIff(tokens: seq<Token>, sizes: RealSizes, env: Env, v: real)
    ensures Evaluate(tokens, sizes, env) == Some(v)
            <==> exists e :: Proper(e) && Postfix(e) == tokens && ValueOf(e, sizes, env) == Some(v)
  {
    hide Run, Proper, ValueOf;
    if Evaluate(tokens, sizes, env) == Some(v) {
      var trees := TreesOf(tokens, sizes, env);
      assert trees[..0] == [] && Proper(trees[0]) && Postfix(trees[0]) == tokens;
      PostfixPushes([], trees[0], sizes, env);
    }
    if e :| Proper(e) && Postfix(e) == tokens && ValueOf(e, sizes, env) == Some(v) {
      PostfixPushes([], e, sizes, env);
    }
  }

  // ---- the symbolic value of a tree ---------------------------------------------------------------------------

  /** What the generator makes of a tree: the tree itself with its numbers in normal form and its names
      replaced by their sizes, except that a factor 1 on either side and a divisor 1 are dropped. The names
      must be sizes along the axis in question. */
  function Normal(e: Expr, axis: Axis, dims: SymDims): Option<Sym> {
    match e
    case Leaf(Num(n)) => Some(Constant(Canon(n)))
    case Leaf(Size(r, a)) =>
      if a != axis then None
      else if r == "OUTPUT" then Some(Target(axis))
      else if r in dims then Some(if axis.W? then dims[r].w else dims[r].h)
      else None
    case Leaf(_) => None
    case Node(op, l, r) =>
      var x, y := Normal(l, axis, dims), Normal(r, axis, dims);
      if x.None? || y.None? then None
      else if (op.Times? || op.Over?) && y.value == Constant(Numeral("", [1], false, [], NoExponent)) then x
      else if op.Times? && x.value == Constant(Numeral("", [1], false, [], NoExponent)) then y
      else Some(Bin(op, x.value, y.value))
  }

  lemma {:induction false} SymRunAppend(stack: seq<Sym>, a: seq<Token>, b: seq<Token>, axis: Axis, dims: SymDims)
    ensures SymRun(stack, a + b, axis, dims)
            == match SymRun(stack, a, axis, dims) case None => None case Some(next) => SymRun(next, b, axis, dims)
    decreases |a|
  {
    hide SymStep;
    if a == [] {
      assert a + b == b;
    } else {
      assert (a + b)[0] == a[0] && (a + b)[1..] == a[1..] + b;
      match SymStep(stack, a[0], axis, dims) {
        case None =>
        case Some(next) => SymRunAppend(next, a[1..], b, axis, dims);
      }
    }
  }

  lemma SymRunOne(stack: seq<Sym>, t: Token, axis: Axis, dims: SymDims)
    ensures SymRun(stack, [t], axis, dims) == SymStep(stack, t, axis, dims)
  {
    hide SymStep;
    assert [t][1..] == [];
  }

  lemma SymOperatorStep(stack: seq<Sym>, x: Sym, y: Sym, op: Operator, axis: Axis, dims: SymDims)
    ensures SymStep((stack + [x]) + [y], Op(op), axis, dims) == Some(stack + [Combine(op, x, y)])
  {
    var s := (stack + [x]) + [y];
    assert s[..|s| - 2] == stack;
  }

  lemma NodeNormal(op: Operator, l: Expr, r: Expr, axis: Axis, dims: SymDims)
    ensures var x, y := Normal(l, axis, dims), Normal(r, axis, dims);
      Normal(Node(op, l, r), axis, dims) == if x.None? || y.None? then None else Some(Combine(op, x.value, y.value))
  {
  }

  lemma {:induction false} PostfixNormalises(stack: seq<Sym>, e: Expr, axis: Axis, dims: SymDims)
    requires Proper(e)
    ensures SymRun(stack, Postfix(e), axis, dims)
            == match Normal(e, axis, dims) case None => None case Some(v) => Some(stack + [v])
    decreases e
  {
    match e {
      case Leaf(t) => SymRunOne(stack, t, axis, dims);
      case Node(op, l, r) =>
        hide SymStep, SymRun, Normal, Combine;
        NodeNormal(op, l, r, axis, dims);
        SymRunAppend(stack, Postfix(l) + Postfix(r), [Op(op)], axis, dims);
        SymRunAppend(stack, Postfix(l), Postfix(r), axis, dims);
        PostfixNormalises(stack, l, axis, dims);
        var x, y := Normal(l, axis, dims), Normal(r, axis, dims);
        if x.Some? {
          PostfixNormalises(stack + [x.value], r, axis, dims);
          if y.Some? {
            SymRunOne((stack + [x.value]) + [y.value], Op(op), axis, dims);
            SymOperatorStep(stack, x.value, y.value, op, axis, dims);
          }
        }
    }
  }

  /** The generator's size of a tree in postfix, without its stack. */
  lemma NormalFormOf(e: Expr, axis: Axis, dims: SymDims)
    requires Proper(e)
    ensures SymEval(Postfix(e), axis, dims) == Normal(e, axis, dims)
  {
    hide SymRun, Normal;
    PostfixNormalises([], e, axis, dims);
  }

  // ---- numbers -----------------------------------------------------------------------------------------------

  lemma {:induction false} Pow10Adds(j: nat, k: nat)
    ensures Pow10(j + k) == Pow10(j) * Pow10(k)
    ensures Pow10(0) == 1.0 && Pow10(1) == 10.0
  {
    if j > 0 { Pow10Adds(j - 1, k); }
  }

  /** The value of a single digit, and of one more digit behind a number. */
  lemma DigitByDigit(ds: seq<Digit>, d: Digit)
    ensures Whole([]) == 0 && Whole([d]) == d && Whole(ds + [d]) == 10 * Whole(ds) + d
  {
    assert [d][..0] == [];
    assert (ds + [d])[..|ds|] == ds;
  }

  lemma WholeStep(ds: seq<Digit>)
    requires ds != []
    ensures var n := |ds| - 1; Whole(ds) as real == Whole(ds[..n]) as real * 10.0 + ds[n] as real
  {
  }

  /** Moved up by k decimal places. */
  function Moved(a: real, k: nat): real { a * Pow10(k) }

  lemma MovedSteps(a: real, b: real, k: nat)
    ensures Moved(a, 0) == a
    ensures Moved(a, k + 1) == 10.0 * Moved(a, k) == Moved(10.0 * a, k)
    ensures Moved(a + b, k) == Moved(a, k) + Moved(b, k)
  {
    var p := Pow10(k);
    assert Pow10(k + 1) == 10.0 * p;
    assert a * (10.0 * p) == 10.0 * (a * p) == 10.0 * a * p;
    assert (a + b) * p == a * p + b * p;
  }

  /** Numbers written one behind the other. */
  lemma {:induction false} WholeJoins(a: seq<Digit>, b: seq<Digit>)
    ensures Whole(a + b) as real == Moved(Whole(a) as real, |b|) + Whole(b) as real
  {
    hide Moved;
    if b == [] {
      assert a + b == a;
      MovedSteps(Whole(a) as real, 0.0, 0);
    } else {
      var n := |b| - 1;
      WholeStep(b);
      WholeStep(a + b);
      MovedSteps(Whole(a) as real, 0.0, n);
      WholeJoins(a, b[..n]);
      assert (a + b)[..|a + b| - 1] == a + b[..n] && (a + b)[|a + b| - 1] == b[n];
    }
  }

  lemma FractionHead(ds: seq<Digit>)
    requires ds != []
    ensures 10.0 * Fraction(ds) == ds[0] as real + Fraction(ds[1..])
  {
  }

  lemma {:induction false} FractionIs(ds: seq<Digit>)
    ensures Moved(Fraction(ds), |ds|) == Whole(ds) as real
  {
    hide Moved;
    if ds == [] {
      MovedSteps(0.0, 0.0, 0);
    } else {
      var n := |ds| - 1;
      FractionIs(ds[1..]);
      WholeJoins([ds[0]], ds[1..]);
      assert ds == [ds[0]] + ds[1..];
      DigitByDigit([], ds[0]);
      FractionHead(ds);
      MovedSteps(Fraction(ds), 0.0, n);
      MovedSteps(ds[0] as real, Fraction(ds[1..]), n);
      hide Whole, Fraction;
    }
  }

  /** A token is worth its digits read as one whole number, moved down by the digits behind the point and
      up or down by the exponent, with its sign. */
  lemma TokenIsWorth(n: Numeral)
    ensures var digits, sign := Whole(n.whole + n.frac) as real, if n.sign == "-" then -1.0 else 1.0;
      match n.exp
      case NoExponent => Moved(Value(n), |n.frac|) == sign * digits
      case Exponent(_, s, e) =>
        if s == "-" then Moved(Moved(Value(n), |n.frac|), Whole(e)) == sign * digits
        else Moved(Value(n), |n.frac|) == Moved(sign * digits, Whole(e))
  {
    hide Whole, Pow10, Fraction;
    MantissaIs(n);
    var p, m, s, e := Pow10(|n.frac|), Mantissa(n), Sign(n.sign), Scale(n.exp);
    Regroup(s, m, e, p, Value(n), m * p);
    if n.exp.Exponent? && n.exp.sign == "-" {
      Undone(Value(n) * p, s * (m * p), e, Pow10(Whole(n.exp.digits)));
    }
  }

  lemma MantissaIs(n: Numeral)
    ensures Mantissa(n) * Pow10(|n.frac|) == Whole(n.whole + n.frac) as real
  {
    hide Whole, Pow10, Fraction;
    WholeJoins(n.whole, n.frac);
    FractionIs(n.frac);
    MovedSteps(Whole(n.whole) as real, Fraction(n.frac), |n.frac|);
  }

  lemma Regroup(s: real, m: real, e: real, p: real, v: real, mp: real)
    requires v == s * (m * e) && mp == m * p
    ensures v * p == s * mp * e
  {
    var me := m * e;
    assert me * p == mp * e;
    assert v * p == s * (me * p);
    assert s * mp * e == s * (mp * e);
  }

  lemma Undone(v: real, x: real, e: real, q: real)
    requires 0.0 < q && e == 1.0 / q && v == x * e
    ensures v * q == x
  {
    assert e * q == 1.0;
    assert x * e * q == x * (e * q);
  }

  function Zeros(k: nat): seq<Digit> { seq(k, _ => 0) }

  lemma {:induction false} StripIs(ds: seq<Digit>, k: nat)
    requires ds == [] || ds[|ds| - 1] != 0
    ensures StripZeros(ds + Zeros(k)) == ds
  {
    if k == 0 {
      assert ds + Zeros(0) == ds;
    } else {
      StripIs(ds, k - 1);
      var all := ds + Zeros(k);
      assert all[|all| - 1] == 0 && all[..|all| - 1] == ds + Zeros(k - 1);
    }
  }

  /** The normal form as text: without a point, the text itself; with one, its zeros at the end go, and the
      point with them if nothing is left behind it; and behind an exponent they go from the exponent. */
  lemma NormalText(sign: string, whole: seq<Digit>, frac: seq<Digit>, k: nat, mark: char, expSign: string, digits: seq<Digit>)
    requires frac == [] || frac[|frac| - 1] != 0
    requires digits == [] || digits[|digits| - 1] != 0
    ensures Canon(Numeral(sign, whole, true, frac + Zeros(k), NoExponent))
            == Numeral(sign, whole, frac != [], frac, NoExponent)
    ensures Canon(Numeral(sign, whole, true, frac, Exponent(mark, expSign, digits + Zeros(k))))
            == Numeral(sign, whole, true, frac, Exponent(mark, expSign, digits))
    ensures Canon(Numeral(sign, whole, false, frac, Exponent(mark, expSign, digits + Zeros(k))))
            == Numeral(sign, whole, false, frac, Exponent(mark, expSign, digits + Zeros(k)))
  {
    StripIs(frac, k);
    StripIs(digits, k);
  }

  // ---- what a pass gets ----------------------------------------------------------------------------------------

  /** A pass has the output size ow x oh exactly if both expressions have values nearest to these, halves
      up, and both are between 1 and 16384. */
  lemma OutputSizeIff(p: Pass, sizes: Sizes, env: Env, ow: int, oh: int)
    ensures OutputSize(p, sizes, env) == Some(Pair(ow, oh)) <==>
      && 1 <= ow <= 16384 && 1 <= oh <= 16384
      && var w, h := EvaluateRpn(p.width, sizes, env), EvaluateRpn(p.height, sizes, env);
         w.Some? && h.Some? && Nearest(ow, w.value) && Nearest(oh, h.value)
  {
    hide EvaluateRpn, LlRound, Nearest;
    var w, h := EvaluateRpn(p.width, sizes, env), EvaluateRpn(p.height, sizes, env);
    if w.Some? { NearestIs(ow, w.value); }
    if h.Some? { NearestIs(oh, h.value); }
  }

  predicate Nearest(n: int, v: real) { n as real - 0.5 <= v < n as real + 0.5 }

  lemma NearestIs(n: int, v: real)
    ensures 1 <= n ==> (LlRound(v) == n <==> Nearest(n, v))
  {
    if 1 <= n && v >= 0.0 { FloorIs(n, v + 0.5); }
  }

  lemma FloorIs(n: int, x: real)
    ensures x.Floor == n <==> n as real <= x < (n + 1) as real
  {
    var f := x.Floor;
    assert f as real <= x < (f + 1) as real;
    assert f < n ==> (f + 1) as real <= n as real;
    assert n < f ==> (n + 1) as real <= f as real;
  }

  /** A list runs exactly if its first pass has such a size and 1 to 128 bindings, all in reach, and the rest
      runs on the sizes kept. */
  lemma FirstPassRunsIff(p: Pass, later: seq<Pass>, sizes: Sizes, result: string, env: Env)
    ensures var out := OutputSize(p, sizes, env);
      RunPasses([p] + later, sizes, result, env).Some?
      <==> out.Some? && 1 <= |p.bindings| <= 128 && (forall b :: b in p.bindings ==> b in sizes)
           && RunPasses(later, Kept(sizes, p, out.value, later, result), result, env).Some?
  {
    hide OutputSize, Kept;
    assert ([p] + later)[1..] == later;
  }

  /** An expression that names a size out of reach has no value. */
  lemma {:induction false} MissingSizeFails(stack: seq<real>, tokens: seq<Token>, k: nat, sizes: RealSizes, env: Env)
    requires k < |tokens| && tokens[k].Size? && tokens[k].resource != "OUTPUT" && tokens[k].resource !in sizes
    ensures Run(stack, tokens, sizes, env) == None
    decreases |tokens|
  {
    if k > 0 {
      hide RunStep;
      match RunStep(stack, tokens[0], sizes, env) {
        case None =>
        case Some(next) => MissingSizeFails(next, tokens[1..], k - 1, sizes, env);
      }
    }
  }

  /** Sizes behind a pass are reachable only while they are needed: a size that neither pass that follows
      binds, and that is not the result or LUMA, can no longer be named, even where it was just saved. */
  lemma UnboundSizeIsGone(p: Pass, q: Pass, later: seq<Pass>, sizes: Sizes, result: string, env: Env, k: nat)
    requires k < |q.width| && q.width[k].Size?
    requires var r := q.width[k].resource;
      r != "OUTPUT" && r != result && r != "LUMA" && forall x :: x in [q] + later ==> r !in x.bindings
    ensures RunPasses([p, q] + later, sizes, result, env) == None
  {
    var r, all := q.width[k].resource, [p, q] + later;
    assert all[1..] == [q] + later;
    var out := OutputSize(p, sizes, env);
    if out.Some? {
      var kept := Kept(sizes, p, out.value, [q] + later, result);
      assert r !in kept && r !in Reals(kept);
      MissingSizeFails([], q.width, k, Reals(kept), env);
      assert OutputSize(q, kept, env) == None;
      assert ([q] + later)[0] == q;
      assert RunPasses([q] + later, kept, result, env) == None;
    }
  }

  /** And while they are needed they are: the pass's own output under the name it saves to, all others as
      they were. */
  lemma BoundSizeIsThere(p: Pass, q: Pass, later: seq<Pass>, sizes: Sizes, result: string, out: Pair<int>, r: string)
    requires (r in q.bindings || r == result || r == "LUMA")
    ensures var kept := Kept(sizes, p, out, [q] + later, result);
      var saved := match p.save case None => "HOOKED" case Some(name) => name;
      if r == saved then r in kept && kept[r] == out
      else (r in kept <==> r in sizes) && (r in kept ==> kept[r] == sizes[r])
  {
    assert q in [q] + later;
  }
}

/** The generator's symbolic dimension analysis (native/tools/generate_anime4k_models.py). */
module DimensionAnalysis {
  import opened Numerals
  import opened Wrappers

  datatype Axis = W | H

  datatype Operator = Times | Over | Greater

  /** A token of a WIDTH or HEIGHT expression. */
  datatype Token = Op(op: Operator) | Num(n: Numeral) | Size(resource: string, axis: Axis) | Junk

  /** A canonical symbolic dimension. */
  datatype Sym =
    | Constant(n: Numeral)
    | Input(axis: Axis)
    | Target(axis: Axis)
    | Bin(op: Operator, left: Sym, right: Sym)

  datatype Pair<T> = Pair(w: T, h: T) {
    function On(a: Axis): T { if a.W? then w else h }
  }

  type SymDims = map<string, Pair<Sym>>

  /** A hook pass: its bindings, where it saves, its size expressions, and which resource
      helpers its body uses. */
  datatype Pass = Pass(
    hook: string, bindings: seq<string>, save: Option<string>, width: seq<Token>, height: seq<Token>,
    helpers: set<string>, texOff: set<string>, texCurrent: set<string>)

  function Destination(p: Pass): string { if p.save.Some? then p.save.value else "HOOKED" }

  // ---- alias resolution -----------------------------------------------------------------------

  /** The binding a helper name stands for. */
  function Bound(p: Pass, name: string): Option<string> {
    if name in p.bindings then Some(name)
    else if name == "MAIN" && p.hook == "MAIN" && "HOOKED" in p.bindings then Some("HOOKED")
    else if name == "HOOKED" && p.hook in p.bindings then Some(p.hook)
    else None
  }

  ghost predicate Resolves(p: Pass, names: set<string>) { forall n :: n in names ==> Bound(p, n).Some? }

  function SlotOf(bindings: seq<string>, name: string): (i: nat)
    requires name in bindings
    ensures i < |bindings| && bindings[i] == name
  {
    if bindings[0] == name then 0 else 1 + SlotOf(bindings[1..], name)
  }

  /** resource_slot_map: every helper gets its binding's register slot, or the pass is refused. */
  method ResourceSlotMap(p: Pass) returns (ok: bool, declared: map<string, nat>, aliases: map<string, nat>)
    ensures ok <==> Resolves(p, p.helpers)
    ensures declared.Keys == (set n | n in p.bindings)
    ensures ok ==> aliases.Keys == declared.Keys + p.helpers
    ensures ok ==> forall n :: n in aliases ==>
              Bound(p, n).Some? && aliases[n] < |p.bindings| && p.bindings[aliases[n]] == Bound(p, n).value
  {
    declared := map n | n in p.bindings :: SlotOf(p.bindings, n);
    aliases := declared;
    var todo := p.helpers;
    while todo != {}
      invariant todo <= p.helpers
      invariant forall n :: n in p.helpers - todo ==> Bound(p, n).Some?
      invariant aliases.Keys == declared.Keys + (p.helpers - todo)
      invariant forall n :: n in aliases ==>
                  Bound(p, n).Some? && aliases[n] < |p.bindings| && p.bindings[aliases[n]] == Bound(p, n).value
      decreases todo
    {
      var name :| name in todo;
      todo := todo - {name};
      if name in aliases {
      } else if name == "MAIN" && p.hook == "MAIN" && "HOOKED" in declared {
        aliases := aliases[name := declared["HOOKED"]];
      } else if name == "HOOKED" && p.hook in declared {
        aliases := aliases[name := declared[p.hook]];
      } else {
        assert Bound(p, name).None?;
        return false, declared, aliases;
      }
    }
    return true, declared, aliases;
  }

  // ---- symbolic evaluation ----------------------------------------------------------------------

  function Combine(op: Operator, left: Sym, right: Sym): Sym {
    if op.Times? && right.Constant? && IsOne(right.n) then left
    else if op.Times? && left.Constant? && IsOne(left.n) then right
    else if op.Over? && right.Constant? && IsOne(right.n) then left
    else Bin(op, left, right)
  }

  /** One token's effect on the stack; None is a generation error. */
  function SymStep(stack: seq<Sym>, t: Token, axis: Axis, dims: SymDims): Option<seq<Sym>> {
    match t
    case Op(op) =>
      if |stack| < 2 then None
      else Some(stack[..|stack| - 2] + [Combine(op, stack[|stack| - 2], stack[|stack| - 1])])
    case Num(n) => Some(stack + [Constant(Canon(n))])
    case Size(resource, a) =>
      if a != axis then None
      else if resource == "OUTPUT" then Some(stack + [Target(axis)])
      else if resource !in dims then None
      else Some(stack + [dims[resource].On(axis)])
    case Junk => None
  }

  function SymRun(stack: seq<Sym>, tokens: seq<Token>, axis: Axis, dims: SymDims): Option<seq<Sym>>
    decreases |tokens|
  {
    if tokens == [] then Some(stack)
    else match SymStep(stack, tokens[0], axis, dims)
      case None => None
      case Some(next) => SymRun(next, tokens[1..], axis, dims)
  }

  function SymEval(tokens: seq<Token>, axis: Axis, dims: SymDims): Option<Sym> {
    match SymRun([], tokens, axis, dims)
    case None => None
    case Some(stack) => if |stack| == 1 then Some(stack[0]) else None
  }

  /** The stack machine as the generator runs it. */
  method EvaluateDimension(tokens: seq<Token>, axis: Axis, dims: SymDims) returns (r: Option<Sym>)
    ensures r == SymEval(tokens, axis, dims)
  {
    var stack: seq<Sym> := [];
    var i := 0;
    assert tokens[0..] == tokens;
    while i < |tokens|
      invariant 0 <= i <= |tokens|
      invariant SymRun(stack, tokens[i..], axis, dims) == SymRun([], tokens, axis, dims)
    {
      var token := tokens[i];
      assert tokens[i..][1..] == tokens[i + 1..];
      i := i + 1;
      match token {
        case Op(op) =>
          if |stack| < 2 { return None; }
          var right := stack[|stack| - 1];
          var left := stack[|stack| - 2];
          stack := stack[..|stack| - 2];
          if op.Times? && right.Constant? && IsOne(right.n) {
            stack := stack + [left];
          } else if op.Times? && left.Constant? && IsOne(left.n) {
            stack := stack + [right];
          } else if op.Over? && right.Constant? && IsOne(right.n) {
            stack := stack + [left];
          } else {
            stack := stack + [Bin(op, left, right)];
          }
        case Num(n) =>
          stack := stack + [Constant(Canon(n))];
        case Size(resource, a) =>
          if a != axis { return None; }
          if resource == "OUTPUT" {
            stack := stack + [Target(axis)];
          } else {
            if resource !in dims { return None; }
            stack := stack + [dims[resource].On(axis)];
          }
        case Junk =>
          return None;
      }
    }
    if |stack| != 1 { return None; }
    return Some(stack[0]);
  }

  // ---- the plans ----------------------------------------------------------------------------------

  datatype Plan = Plan(currentLoads: set<string>, texOffLoads: set<string>)

  const INITIAL: SymDims := map[
    "MAIN" := Pair(Input(W), Input(H)), "HOOKED" := Pair(Input(W), Input(H)), "LUMA" := Pair(Input(W), Input(H))]

  function OutputDims(p: Pass, dims: SymDims): Option<Pair<Sym>> {
    var w, h := SymEval(p.width, W, dims), SymEval(p.height, H, dims);
    if w.Some? && h.Some? then Some(Pair(w.value, h.value)) else None
  }

  ghost predicate PassAccepted(p: Pass, dims: SymDims) {
    && Resolves(p, p.helpers + p.texOff + p.texCurrent)
    && (forall b :: b in p.bindings ==> b in dims)
    && OutputDims(p, dims).Some?
  }

  /** A resource whose symbolic size is the pass output's. */
  ghost predicate SameSize(p: Pass, dims: SymDims, name: string) {
    && Bound(p, name).Some? && Bound(p, name).value in dims
    && OutputDims(p, dims).Some?
    && dims[Bound(p, name).value] == OutputDims(p, dims).value
  }

  ghost function PlanFor(p: Pass, dims: SymDims): Plan {
    Plan(set n | n in p.texCurrent && SameSize(p, dims, n), set n | n in p.texOff && SameSize(p, dims, n))
  }

  ghost function PlansFrom(passes: seq<Pass>, dims: SymDims): Option<seq<Plan>> {
    if passes == [] then Some([])
    else if !PassAccepted(passes[0], dims) then None
    else match PlansFrom(passes[1..], dims[Destination(passes[0]) := OutputDims(passes[0], dims).value])
      case None => None
      case Some(rest) => Some([PlanFor(passes[0], dims)] + rest)
  }

  /** The loop over one name set: which names read a resource of the output's size. */
  method SelectLoads(p: Pass, aliases: map<string, nat>, dims: SymDims, output: Pair<Sym>, names: set<string>)
    returns (ok: bool, loads: set<string>)
    requires OutputDims(p, dims) == Some(output)
    requires forall b :: b in p.bindings ==> b in dims
    requires Resolves(p, p.helpers) && aliases.Keys == (set n | n in p.bindings) + p.helpers
    requires forall n :: n in aliases ==>
               Bound(p, n).Some? && aliases[n] < |p.bindings| && p.bindings[aliases[n]] == Bound(p, n).value
    requires names <= p.helpers
    ensures ok && loads == set n | n in names && SameSize(p, dims, n)
  {
    loads := {};
    var todo := names;
    while todo != {}
      invariant todo <= names
      invariant loads == set n | n in names - todo && SameSize(p, dims, n)
      decreases todo
    {
      var name :| name in todo;
      todo := todo - {name};
      if name !in aliases { return false, loads; }
      var bound := p.bindings[aliases[name]];
      if dims[bound] == output {
        loads := loads + {name};
      }
    }
    return true, loads;
  }

  /** build_sampling_plans over a model's pass list. The two reference scans are sub-patterns
      of the helper scan, so their names are among the helpers. */
  method BuildSamplingPlans(passes: seq<Pass>) returns (ok: bool, plans: seq<Plan>)
    requires forall p :: p in passes ==> p.texOff <= p.helpers && p.texCurrent <= p.helpers
    ensures ok <==> PlansFrom(passes, INITIAL).Some?
    ensures ok ==> plans == PlansFrom(passes, INITIAL).value
  {
    hide SymEval, Resolves, SameSize;
    var dims := INITIAL;
    plans := [];
    ghost var goal := PlansFrom(passes, INITIAL);
    var k := 0;
    assert passes[0..] == passes;
    assert goal.Some? ==> [] + goal.value == goal.value;
    while k < |passes|
      invariant 0 <= k <= |passes|
      invariant goal == Joined(plans, PlansFrom(passes[k..], dims))
    {
      var p := passes[k];
      assert passes[k..][0] == p && passes[k..][1..] == passes[k + 1..];
      var resolved, declared, aliases := ResourceSlotMap(p);
      assert p.helpers + p.texOff + p.texCurrent == p.helpers;
      if !resolved { return false, plans; }
      var i := 0;
      while i < |p.bindings|
        invariant 0 <= i <= |p.bindings|
        invariant forall j :: 0 <= j < i ==> p.bindings[j] in dims
      {
        if p.bindings[i] !in dims { return false, plans; }
        i := i + 1;
      }
      var w := EvaluateDimension(p.width, W, dims);
      var h := EvaluateDimension(p.height, H, dims);
      if w.None? || h.None? { return false, plans; }
      var output := Pair(w.value, h.value);
      var ok1, texOffLoads := SelectLoads(p, aliases, dims, output, p.texOff);
      var ok2, currentLoads := SelectLoads(p, aliases, dims, output, p.texCurrent);
      ghost var rest := PlansFrom(passes[k + 1..], dims[Destination(p) := output]);
      JoinedStep(plans, Plan(currentLoads, texOffLoads), rest);
      plans := plans + [Plan(currentLoads, texOffLoads)];
      dims := dims[Destination(p) := output];
      k := k + 1;
    }
    return true, plans;
  }

  ghost function Joined(done: seq<Plan>, rest: Option<seq<Plan>>): Option<seq<Plan>> {
    match rest case None => None case Some(r) => Some(done + r)
  }

  lemma JoinedStep(done: seq<Plan>, p: Plan, rest: Option<seq<Plan>>)
    ensures rest.Some? ==> Joined(done + [p], rest) == Joined(done, Some([p] + rest.value))
  {
    if rest.Some? { assert (done + [p]) + rest.value == done + ([p] + rest.value); }
  }
}

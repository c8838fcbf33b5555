/** Which lookups a plan must turn into integer loads: the converse of the soundness of the analysis. */
module SamplingPlanLaws {
  import opened Wrappers
  import opened DimensionAnalysis
  import opened DimensionSoundness
  import opened SplicedPasses

  /** The symbolic sizes the k-th pass finds. */
  ghost function DimsAt(passes: seq<Pass>, dims: SymDims, k: nat): SymDims
    requires k <= |passes| && PlansFrom(passes, dims).Some?
  {
    if k == 0 then dims else DimsAt(passes[1..], DimsAfter(passes[0], dims), k - 1)
  }

  lemma AcceptedHasDims(p: Pass, dims: SymDims)
    requires PassAccepted(p, dims)
    ensures OutputDims(p, dims).Some?
  {
  }

  lemma PlanHead(passes: seq<Pass>, dims: SymDims)
    requires passes != [] && PlansFrom(passes, dims).Some?
    ensures PassAccepted(passes[0], dims) && OutputDims(passes[0], dims).Some?
    ensures var rest := PlansFrom(passes[1..], DimsAfter(passes[0], dims));
      rest.Some? && PlansFrom(passes, dims).value == [PlanFor(passes[0], dims)] + rest.value
  {
    AcceptedHasDims(passes[0], dims);
    hide PassAccepted, PlanFor;
  }

  lemma {:induction false} PlanAt(passes: seq<Pass>, dims: SymDims, k: nat)
    requires k < |passes| && PlansFrom(passes, dims).Some?
    ensures k < |PlansFrom(passes, dims).value|
    ensures PassAccepted(passes[k], DimsAt(passes, dims, k))
    ensures PlansFrom(passes, dims).value[k] == PlanFor(passes[k], DimsAt(passes, dims, k))
    ensures DimsAt(passes, dims, k + 1) == DimsAfter(passes[k], DimsAt(passes, dims, k))
  {
    PlanHead(passes, dims);
    hide PassAccepted, PlanFor, PlansFrom, OutputDims, DimsAfter;
    if k > 0 {
      PlanAt(passes[1..], DimsAfter(passes[0], dims), k - 1);
    } else {
      assert DimsAt(passes, dims, 1) == DimsAt(passes[1..], DimsAfter(passes[0], dims), 0);
    }
  }

  /** Each of a helper's lookups that the pass makes is planned as an integer load. */
  predicate Loads(p: Pass, plan: Plan, n: string) {
    (n in p.texCurrent ==> n in plan.currentLoads) && (n in p.texOff ==> n in plan.texOffLoads)
  }

  lemma SameSizeIsLoaded(p: Pass, dims: SymDims, n: string)
    requires PassAccepted(p, dims) && Bound(p, n).Some? && Bound(p, n).value in dims
    requires dims[Bound(p, n).value] == OutputDims(p, dims).value
    ensures Loads(p, PlanFor(p, dims), n)
  {
    hide OutputDims;
  }

  lemma BareSymbol(r: string, axis: Axis, dims: SymDims)
    requires r != "OUTPUT" && r in dims
    ensures SymEval([Size(r, axis)], axis, dims) == Some(dims[r].On(axis))
  {
    var t := Size(r, axis);
    assert SymRun([], [t], axis, dims) == SymRun([dims[r].On(axis)], [t][1..], axis, dims) by {
      assert [] + [dims[r].On(axis)] == [dims[r].On(axis)];
    }
    assert [t][1..] == [];
  }

  /** A pass of a resource's own size loads that resource, under every helper name that stands for it. */
  lemma BareSizesAreLoaded(passes: seq<Pass>, k: nat, r: string, n: string)
    requires PlansFrom(passes, INITIAL).Some? && k < |passes| && r != "OUTPUT"
    requires passes[k].width == [Size(r, W)] && passes[k].height == [Size(r, H)] && Bound(passes[k], n) == Some(r)
    ensures k < |PlansFrom(passes, INITIAL).value| && Loads(passes[k], PlansFrom(passes, INITIAL).value[k], n)
  {
    hide PlansFrom, PlanFor, SymEval;
    PlanAt(passes, INITIAL, k);
    var dims := DimsAt(passes, INITIAL, k);
    assert r in passes[k].bindings;
    BareSymbol(r, W, dims);
    BareSymbol(r, H, dims);
    SameSizeIsLoaded(passes[k], dims, n);
  }

  // ---- equal expressions ------------------------------------------------------------------------------

  lemma {:induction false} SymReads(stack: seq<Sym>, tokens: seq<Token>, axis: Axis, a: SymDims, b: SymDims)
    requires forall r :: Reads(tokens, r) ==> (r in a <==> r in b) && (r in a ==> a[r] == b[r])
    ensures SymRun(stack, tokens, axis, a) == SymRun(stack, tokens, axis, b)
    decreases |tokens|
  {
    hide Combine;
    if tokens != [] {
      var t := tokens[0];
      assert t in tokens;
      assert t.Size? ==> Reads(tokens, t.resource);
      assert SymStep(stack, t, axis, a) == SymStep(stack, t, axis, b);
      if SymStep(stack, t, axis, a).Some? {
        forall r | Reads(tokens[1..], r) ensures (r in a <==> r in b) && (r in a ==> a[r] == b[r]) {
          assert Reads(tokens, r);
        }
        SymReads(SymStep(stack, t, axis, a).value, tokens[1..], axis, a, b);
      }
    }
  }

  /** No pass from i up to k saves under a name the expressions read. */
  predicate Undisturbed(passes: seq<Pass>, i: nat, k: nat, width: seq<Token>, height: seq<Token>)
    requires k <= |passes|
  {
    forall m :: i <= m < k ==> !Reads(width, Destination(passes[m])) && !Reads(height, Destination(passes[m]))
  }

  lemma {:induction false} SameReadings(passes: seq<Pass>, dims: SymDims, i: nat, k: nat, width: seq<Token>, height: seq<Token>)
    requires i <= k <= |passes| && PlansFrom(passes, dims).Some? && Undisturbed(passes, i, k, width, height)
    ensures SymEval(width, W, DimsAt(passes, dims, k)) == SymEval(width, W, DimsAt(passes, dims, i))
    ensures SymEval(height, H, DimsAt(passes, dims, k)) == SymEval(height, H, DimsAt(passes, dims, i))
  {
    hide PlansFrom, PassAccepted, SymRun, DimsAt;
    if i < k {
      SameReadings(passes, dims, i, k - 1, width, height);
      PlanAt(passes, dims, k - 1);
      var a, b := DimsAt(passes, dims, k - 1), DimsAt(passes, dims, k);
      AcceptedHasDims(passes[k - 1], a);
      hide Reads;
      SymReads([], width, W, a, b);
      SymReads([], height, H, a, b);
    }
  }

  /** A saved size stays until its name is saved again. */
  lemma {:induction false} SavedStays(passes: seq<Pass>, dims: SymDims, i: nat, k: nat)
    requires i < k <= |passes| && PlansFrom(passes, dims).Some?
    requires forall m :: i < m < k ==> Destination(passes[m]) != Destination(passes[i])
    ensures OutputDims(passes[i], DimsAt(passes, dims, i)).Some?
    ensures Destination(passes[i]) in DimsAt(passes, dims, k)
    ensures DimsAt(passes, dims, k)[Destination(passes[i])] == OutputDims(passes[i], DimsAt(passes, dims, i)).value
  {
    hide PlansFrom, PassAccepted, OutputDims, DimsAt, PlanFor;
    PlanAt(passes, dims, k - 1);
    AcceptedHasDims(passes[k - 1], DimsAt(passes, dims, k - 1));
    if i < k - 1 { SavedStays(passes, dims, i, k - 1); }
  }

  /** A pass loads what an earlier pass saved under the very expressions that give its own size, as long
      as neither the saved name nor any name they read was saved again. */
  lemma EqualExpressionsAreLoaded(passes: seq<Pass>, i: nat, k: nat, n: string)
    requires PlansFrom(passes, INITIAL).Some? && i < k < |passes|
    requires passes[k].width == passes[i].width && passes[k].height == passes[i].height
    requires Undisturbed(passes, i, k, passes[i].width, passes[i].height)
    requires forall m :: i < m < k ==> Destination(passes[m]) != Destination(passes[i])
    requires Bound(passes[k], n) == Some(Destination(passes[i]))
    ensures k < |PlansFrom(passes, INITIAL).value| && Loads(passes[k], PlansFrom(passes, INITIAL).value[k], n)
  {
    hide PlansFrom, PlanFor, SymEval, DimsAt;
    PlanAt(passes, INITIAL, k);
    SavedStays(passes, INITIAL, i, k);
    SameReadings(passes, INITIAL, i, k, passes[i].width, passes[i].height);
    SameSizeIsLoaded(passes[k], DimsAt(passes, INITIAL, k), n);
  }

  /** Two resources saved under equal expressions over the same sizes are of one size to the generator: a
      pass of the first one's size loads the second. */
  lemma TwinsAreLoaded(passes: seq<Pass>, i: nat, j: nat, k: nat, n: string)
    requires PlansFrom(passes, INITIAL).Some? && i < j < k < |passes|
    requires passes[j].width == passes[i].width && passes[j].height == passes[i].height
    requires Undisturbed(passes, i, j, passes[i].width, passes[i].height)
    requires forall m :: i < m < k ==> Destination(passes[m]) != Destination(passes[i])
    requires forall m :: j < m < k ==> Destination(passes[m]) != Destination(passes[j])
    requires Destination(passes[i]) != "OUTPUT"
    requires passes[k].width == [Size(Destination(passes[i]), W)] && passes[k].height == [Size(Destination(passes[i]), H)]
    requires Bound(passes[k], n) == Some(Destination(passes[j]))
    ensures k < |PlansFrom(passes, INITIAL).value| && Loads(passes[k], PlansFrom(passes, INITIAL).value[k], n)
  {
    hide PlansFrom, PlanFor, SymEval, DimsAt;
    PlanAt(passes, INITIAL, k);
    SavedStays(passes, INITIAL, i, k);
    SavedStays(passes, INITIAL, j, k);
    SameReadings(passes, INITIAL, i, j, passes[i].width, passes[i].height);
    var dims := DimsAt(passes, INITIAL, k);
    BareSymbol(Destination(passes[i]), W, dims);
    BareSymbol(Destination(passes[i]), H, dims);
    SameSizeIsLoaded(passes[k], dims, n);
  }

  /** And a plan names no lookup the pass does not make. */
  lemma PlansStayInside(passes: seq<Pass>, k: nat)
    requires PlansFrom(passes, INITIAL).Some? && k < |passes|
    ensures k < |PlansFrom(passes, INITIAL).value|
    ensures PlansFrom(passes, INITIAL).value[k].currentLoads <= passes[k].texCurrent
    ensures PlansFrom(passes, INITIAL).value[k].texOffLoads <= passes[k].texOff
  {
    hide PlansFrom, SameSize;
    PlanAt(passes, INITIAL, k);
  }

  /** The names a helper can have: a binding's own; MAIN for HOOKED in a hook on MAIN; HOOKED for the hook
      itself. A binding of the very name comes first. */
  lemma AliasesAre(p: Pass, n: string, r: string)
    ensures Bound(p, n) == Some(r) <==>
            r in p.bindings
            && (n == r || (n !in p.bindings && n == "MAIN" && p.hook == "MAIN" && r == "HOOKED")
                || (n !in p.bindings && n == "HOOKED" && r == p.hook))
  {
  }

  // ---- which lists are accepted ----------------------------------------------------------------------

  /** The first k passes are accepted and leave these sizes. */
  ghost function Reached(passes: seq<Pass>, dims: SymDims, k: nat): Option<SymDims>
    requires k <= |passes|
  {
    if k == 0 then Some(dims)
    else
      match Reached(passes, dims, k - 1)
      case None => None
      case Some(d) => if PassAccepted(passes[k - 1], d) then Some(DimsAfter(passes[k - 1], d)) else None
  }

  lemma {:induction false} ReachedTail(passes: seq<Pass>, dims: SymDims, k: nat)
    requires 0 < k <= |passes| && PassAccepted(passes[0], dims)
    ensures Reached(passes, dims, k) == Reached(passes[1..], DimsAfter(passes[0], dims), k - 1)
  {
    hide PassAccepted, DimsAfter;
    if k > 1 {
      ReachedTail(passes, dims, k - 1);
      assert passes[1..][k - 2] == passes[k - 1];
    } else {
      assert Reached(passes, dims, 0) == Some(dims);
    }
  }

  lemma {:induction false} RefusedStays(passes: seq<Pass>, dims: SymDims, k: nat)
    requires 0 < k <= |passes| && !PassAccepted(passes[0], dims)
    ensures Reached(passes, dims, k).None?
  {
    hide PassAccepted;
    if k > 1 { RefusedStays(passes, dims, k - 1); } else { assert Reached(passes, dims, 0) == Some(dims); }
  }

  lemma {:induction false} PlansExistIff(passes: seq<Pass>, dims: SymDims)
    ensures PlansFrom(passes, dims).Some? <==> Reached(passes, dims, |passes|).Some?
    decreases |passes|
  {
    hide PassAccepted, PlanFor;
    if passes != [] {
      if PassAccepted(passes[0], dims) {
        AcceptedHasDims(passes[0], dims);
        ReachedTail(passes, dims, |passes|);
        PlansExistIff(passes[1..], DimsAfter(passes[0], dims));
      } else {
        RefusedStays(passes, dims, |passes|);
      }
    }
  }

  /** What the k-th pass demands: a binding for each of its helpers, bindings that are the source's or were
      saved before, and two expressions with a size. */
  ghost predicate Fits(passes: seq<Pass>, k: nat, dims: SymDims)
    requires k < |passes|
  {
    var p := passes[k];
    && (forall n :: n in p.helpers || n in p.texOff || n in p.texCurrent ==> Bound(p, n).Some?)
    && (forall b :: b in p.bindings ==> Known(passes, k, b))
    && SymEval(p.width, W, dims).Some? && SymEval(p.height, H, dims).Some?
  }

  ghost predicate Known(passes: seq<Pass>, k: nat, name: string)
    requires k <= |passes|
  {
    name == "MAIN" || name == "HOOKED" || name == "LUMA" || exists j :: 0 <= j < k && Destination(passes[j]) == name
  }

  lemma {:induction false} KnownAre(passes: seq<Pass>, k: nat)
    requires k <= |passes| && Reached(passes, INITIAL, k).Some?
    ensures forall name :: name in Reached(passes, INITIAL, k).value <==> Known(passes, k, name)
  {
    hide PassAccepted, OutputDims;
    if k > 0 {
      KnownAre(passes, k - 1);
      assert Reached(passes, INITIAL, k - 1).Some?;
      forall name
        ensures Known(passes, k, name) <==> Known(passes, k - 1, name) || name == Destination(passes[k - 1])
      {
      }
    }
  }

  lemma FitsIff(passes: seq<Pass>, k: nat, dims: SymDims)
    requires k < |passes| && forall name :: name in dims <==> Known(passes, k, name)
    ensures Fits(passes, k, dims) <==> PassAccepted(passes[k], dims)
  {
    hide Known, SymEval, Bound;
  }

  /** A list has plans exactly if each pass finds what it demands among the sizes the passes before it
      leave. */
  lemma AcceptedIff(passes: seq<Pass>)
    ensures PlansFrom(passes, INITIAL).Some?
            <==> forall k :: 0 <= k < |passes| ==>
                   Reached(passes, INITIAL, k).Some? && Fits(passes, k, Reached(passes, INITIAL, k).value)
  {
    hide PassAccepted, Fits, Reached, PlansFrom;
    PlansExistIff(passes, INITIAL);
    AllReachedIff(passes, |passes|);
  }

  lemma ReachesNext(passes: seq<Pass>, k: nat)
    requires k < |passes|
    ensures Reached(passes, INITIAL, k + 1).Some?
            <==> Reached(passes, INITIAL, k).Some? && Fits(passes, k, Reached(passes, INITIAL, k).value)
  {
    hide PassAccepted, Fits;
    if Reached(passes, INITIAL, k).Some? {
      KnownAre(passes, k);
      FitsIff(passes, k, Reached(passes, INITIAL, k).value);
    }
  }

  lemma {:induction false} AllReachedIff(passes: seq<Pass>, n: nat)
    requires n <= |passes|
    ensures Reached(passes, INITIAL, n).Some?
            <==> forall k :: 0 <= k < n ==>
                   Reached(passes, INITIAL, k).Some? && Fits(passes, k, Reached(passes, INITIAL, k).value)
  {
    hide Reached, Fits;
    if n > 0 {
      AllReachedIff(passes, n - 1);
      ReachesNext(passes, n - 1);
    } else {
      NothingReached(passes);
    }
  }

  lemma NothingReached(passes: seq<Pass>)
    ensures Reached(passes, INITIAL, 0) == Some(INITIAL)
  {
  }
}

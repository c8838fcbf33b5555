/** The generator's two halves together: where the plan replaces sampling by integer loads, the
    planned model renders what the sampling model renders. */
module RewriteSoundness {
  import opened Wrappers
  import opened DimensionAnalysis
  import opened DimensionSoundness
  import opened SamplingRewrite

  /** The texture a pass reads under a helper name, of the size it has when the pass runs. */
  ghost predicate SameLookups(p: Pass, plan: Plan, ran: Ran) {
    forall n, tex: Texture, x, y, dx, dy ::
      n in plan.currentLoads + plan.texOffLoads && 0 <= x < ran.output.w && 0 <= y < ran.output.h
      ==> SameLookup(p, n, ran, tex, x, y, dx, dy)
  }

  ghost predicate SameLookup(p: Pass, n: string, ran: Ran, tex: Texture, x: int, y: int, dx: int, dy: int) {
    Bound(p, n).Some? && Bound(p, n).value in ran.sizes
    && var size := ran.sizes[Bound(p, n).value];
    0 < size.w && 0 < size.h && 0 < ran.output.w && 0 < ran.output.h
    && SampleOffset(tex, (size.w, size.h), (ran.output.w, ran.output.h), x, y, dx, dy)
       == LoadOffset(tex, (size.w, size.h), x, y, dx, dy)
  }

  lemma {:induction false} OutputsArePositive(passes: seq<Pass>, sizes: Sizes, result: string, env: Env, k: nat)
    requires RunPasses(passes, sizes, result, env).Some? && k < |RunPasses(passes, sizes, result, env).value|
    ensures var out := RunPasses(passes, sizes, result, env).value[k].output; 0 < out.w && 0 < out.h
  {
    hide Kept, Retained, EvaluateRpn;
    if k > 0 {
      var out := OutputSize(passes[0], sizes, env).value;
      OutputsArePositive(passes[1..], Kept(sizes, passes[0], out, passes[1..], result), result, env, k - 1);
    }
  }

  lemma SafeLoadsKeepMeaning(p: Pass, plan: Plan, ran: Ran)
    requires LoadsAreSafe(p, plan, ran) && 0 < ran.output.w && 0 < ran.output.h
    ensures SameLookups(p, plan, ran)
  {
    hide SampleOffset, LoadOffset;
    forall n, tex: Texture, x, y, dx, dy
      | n in plan.currentLoads + plan.texOffLoads && 0 <= x < ran.output.w && 0 <= y < ran.output.h
      ensures SameLookup(p, n, ran, tex, x, y, dx, dy)
    {
      LoadIsSample(tex, (ran.output.w, ran.output.h), x, y, dx, dy);
    }
  }

  /** For every pass list of sizes, products and whole constants (all shipped ones are), every source and
      target size, texture, pixel and offset: each lookup the plan turns into an integer load fetches
      exactly what sampling would have. */
  lemma PlannedLoadsKeepMeaning(passes: seq<Pass>, result: string, env: Env)
    requires TokenPasses(passes)
    requires forall p :: p in passes ==> WholeTokens(p.width) && WholeTokens(p.height)
    requires PlansFrom(passes, INITIAL).Some? && RunPasses(passes, StartSizes(env), result, env).Some?
    ensures |PlansFrom(passes, INITIAL).value| == |RunPasses(passes, StartSizes(env), result, env).value| == |passes|
    ensures forall k :: 0 <= k < |passes| ==>
              SameLookups(passes[k], PlansFrom(passes, INITIAL).value[k],
                          RunPasses(passes, StartSizes(env), result, env).value[k])
  {
    hide PlansFrom, RunPasses, LoadsAreSafe, SameLookups;
    WholePassesSound(passes, result, env);
    forall k | 0 <= k < |passes|
      ensures SameLookups(passes[k], PlansFrom(passes, INITIAL).value[k],
                          RunPasses(passes, StartSizes(env), result, env).value[k])
    {
      OutputsArePositive(passes, StartSizes(env), result, env, k);
      SafeLoadsKeepMeaning(passes[k], PlansFrom(passes, INITIAL).value[k],
                           RunPasses(passes, StartSizes(env), result, env).value[k]);
    }
  }
}

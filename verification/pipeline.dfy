/** The middleware chain the player runs before launching: every stage gets
    the context and either hands a context to the next stage, throws, or never
    continues. The chain stops at the first stage that does not continue. */
module Pipeline {
  import opened Model

  type Stage = Ctx -> StageResult

  /** Runs `stages` in order, starting from `ctx`. With no stages the
      context goes through untouched; a chain that does not continue to its
      end stops with the outcome of one of its stages, and a first stage that
      does not continue ends the chain with its own outcome. */
  function Run(stages: seq<Stage>, ctx: Ctx): (r: StageResult)
    ensures |stages| == 0 ==> r == Proceed(ctx)
    ensures !r.Proceed? ==> exists i, c :: 0 <= i < |stages| && r == stages[i](c)
    ensures |stages| > 0 && !stages[0](ctx).Proceed? ==> r == stages[0](ctx)
    decreases |stages|
  {
    if |stages| == 0 then Proceed(ctx)
    else
      var out := stages[0](ctx);
      if out.Proceed? then Run(stages[1..], out.ctx) else out
  }

  /** Continues an outcome with more stages, if it continued at all. */
  function Then(r: StageResult, stages: seq<Stage>): StageResult {
    if r.Proceed? then Run(stages, r.ctx) else r
  }

  /** Running two chains back to back is running their concatenation. */
  lemma {:induction false} RunAppend(a: seq<Stage>, b: seq<Stage>, ctx: Ctx)
    ensures Run(a + b, ctx) == Then(Run(a, ctx), b)
    decreases |a|
  {
    if |a| == 0 {
      assert a + b == b;
    } else {
      assert (a + b)[0] == a[0];
      assert (a + b)[1..] == a[1..] + b;
      var out := a[0](ctx);
      if out.Proceed? {
        RunAppend(a[1..], b, out.ctx);
      }
    }
  }

  /** Stages that all decline on a context leave it untouched and still let
      the chain continue: declining never stalls the pipeline. */
  lemma {:induction false} DecliningStagesPassThrough(stages: seq<Stage>, ctx: Ctx)
    requires forall i :: 0 <= i < |stages| ==> stages[i](ctx) == Proceed(ctx)
    ensures Run(stages, ctx) == Proceed(ctx)
    decreases |stages|
  {
    if |stages| > 0 {
      assert stages[0](ctx) == Proceed(ctx);
      forall i | 0 <= i < |stages[1..]|
        ensures stages[1..][i](ctx) == Proceed(ctx)
      {
        assert stages[1..][i] == stages[i + 1];
      }
      DecliningStagesPassThrough(stages[1..], ctx);
    }
  }

  /** The chain driven by a loop, one stage per iteration; it computes
      exactly the recursive definition. */
  method Drive(stages: seq<Stage>, ctx: Ctx) returns (r: StageResult)
    ensures r == Run(stages, ctx)
  {
    var i := 0;
    var cur := ctx;
    while i < |stages|
      invariant 0 <= i <= |stages|
      invariant Run(stages, ctx) == Run(stages[i..], cur)
    {
      assert stages[i..][0] == stages[i];
      assert stages[i..][1..] == stages[i + 1..];
      var out := stages[i](cur);
      if !out.Proceed? {
        return out;
      }
      cur := out.ctx;
      i := i + 1;
    }
    r := Proceed(cur);
  }
}

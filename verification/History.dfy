/** Histories that grow one step at a time, for any transition relation. */
module History {
  /** The states gone through from `first`, and the steps between them. */
  ghost predicate Chain<S(!new), L(!new)>(next: (S, L, S) -> bool, first: S, run: seq<S>, steps: seq<L>) {
    && |run| == |steps| + 1 && run[0] == first
    && forall k {:trigger steps[k]} | 0 <= k < |steps| :: next(run[k], steps[k], run[k + 1])
  }

  lemma ChainGrows<S(!new), L(!new)>(next: (S, L, S) -> bool, first: S, run: seq<S>, steps: seq<L>, step: L, s: S)
    requires Chain(next, first, run, steps) && next(run[|steps|], step, s)
    ensures Chain(next, first, run + [s], steps + [step])
  {
    var run', steps' := run + [s], steps + [step];
    forall k {:trigger steps'[k]} | 0 <= k < |steps'| ensures next(run'[k], steps'[k], run'[k + 1]) {
      if k < |steps| {
        assert steps'[k] == steps[k];
      }
    }
  }
}

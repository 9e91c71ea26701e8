/** Runs of a transition system: finite sequences of states, each reached from the one before. */
module Runs {
  ghost predicate IsRun<S(!new)>(init: S -> bool, next: (S, S) -> bool, run: seq<S>) {
    && |run| > 0
    && init(run[0])
    && forall i, j :: 0 <= i < |run| && j == i + 1 < |run| ==> next(run[i], run[j])
  }

  ghost predicate IsInvariant<S(!new)>(init: S -> bool, next: (S, S) -> bool, inv: S -> bool) {
    && (forall s :: init(s) ==> inv(s))
    && (forall s, t :: inv(s) && next(s, t) ==> inv(t))
  }

  lemma {:induction false} Holds<S(!new)>(
    init: S -> bool, next: (S, S) -> bool, inv: S -> bool, run: seq<S>, i: nat)
    requires IsRun(init, next, run) && IsInvariant(init, next, inv) && i < |run|
    ensures inv(run[i])
  {
    if i > 0 {
      Holds(init, next, inv, run, i - 1);
      assert next(run[i - 1], run[i]);
    }
  }

  lemma StepAt<S(!new)>(init: S -> bool, next: (S, S) -> bool, run: seq<S>, i: nat)
    requires IsRun(init, next, run) && i + 1 < |run|
    ensures next(run[i], run[i + 1])
  {
  }

  /** A run may be extended by any step from its last state. */
  lemma Extend<S(!new)>(init: S -> bool, next: (S, S) -> bool, run: seq<S>, t: S)
    requires IsRun(init, next, run) && next(run[|run| - 1], t)
    ensures IsRun(init, next, run + [t])
  {
  }
}

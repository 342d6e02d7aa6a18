/** Runs of a transition system, and the induction over them. */
module Runs {

  /** A run starts in an initial state and takes one step after another. */
  ghost predicate IsRun<S(!new)>(init: S -> bool, next: (S, S) -> bool, run: seq<S>)
    ensures IsRun(init, next, run) ==> run != []
  {
    if |run| <= 1 then |run| == 1 && init(run[0])
    else IsRun(init, next, run[..|run| - 1]) && next(run[|run| - 2], run[|run| - 1])
  }

  ghost predicate Inductive<S(!new)>(init: S -> bool, next: (S, S) -> bool, inv: S -> bool) {
    && (forall s :: init(s) ==> inv(s))
    && (forall s, s' :: inv(s) && next(s, s') ==> inv(s'))
  }

  /** What starts true and survives every step is true everywhere in every run. */
  lemma {:induction false} Always<S(!new)>(
      init: S -> bool, next: (S, S) -> bool, inv: S -> bool, run: seq<S>, k: nat)
    requires IsRun(init, next, run) && Inductive(init, next, inv) && k < |run|
    ensures inv(run[k])
  {
    var before := run[..|run| - 1];
    if |run| > 1 {
      if k < |run| - 1 {
        Always(init, next, inv, before, k);
        assert before[k] == run[k];
      } else {
        Always(init, next, inv, before, k - 1);
        assert before[k - 1] == run[k - 1];
        assert next(run[k - 1], run[k]);
      }
    }
  }

  lemma Extended<S(!new)>(init: S -> bool, next: (S, S) -> bool, run: seq<S>, s: S)
    requires IsRun(init, next, run) && next(run[|run| - 1], s)
    ensures IsRun(init, next, run + [s])
  {
    assert (run + [s])[..|run|] == run;
  }

  /** Any two neighbours in a run are joined by a step, and every prefix is a run. */
  lemma {:induction false} StepAt<S(!new)>(init: S -> bool, next: (S, S) -> bool, run: seq<S>, k: nat)
    requires IsRun(init, next, run) && k + 1 < |run|
    ensures next(run[k], run[k + 1])
  {
    if k + 2 < |run| {
      var before := run[..|run| - 1];
      StepAt(init, next, before, k);
      assert before[k] == run[k] && before[k + 1] == run[k + 1];
    }
  }
}

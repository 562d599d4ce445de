/** Steps that have happened in a run. */
module Runs {

  /** The step is among the first i. */
  predicate Happened<T(==)>(steps: seq<T>, i: nat, step: T)
  {
    exists j :: 0 <= j < i && j < |steps| && steps[j] == step
  }

  lemma HappenedNext<T>(steps: seq<T>, i: nat, step: T)
    requires i < |steps|
    ensures Happened(steps, i + 1, step) <==> Happened(steps, i, step) || steps[i] == step
  {
    if Happened(steps, i + 1, step) {
      var j :| 0 <= j < i + 1 && j < |steps| && steps[j] == step;
      assert j < i || steps[i] == step;
    }
    if Happened(steps, i, step) {
      var j :| 0 <= j < i && j < |steps| && steps[j] == step;
      assert j < i + 1;
    }
  }
}

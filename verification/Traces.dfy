/** Runs of a state machine: states with the steps between them, the latest last. */
module Traces {

  datatype Trace<S, T> = Begin(s: S) | Then(past: Trace<S, T>, step: T, s: S)

  function StepsOf<S, T>(t: Trace<S, T>): seq<T> {
    match t
    case Begin(_) => []
    case Then(past, step, _) => StepsOf(past) + [step]
  }

  lemma NextStep<T>(steps: seq<T>, k: nat)
    requires k < |steps|
    ensures steps[..k + 1] == steps[..k] + [steps[k]]
  {
  }

  lemma AllSteps<T>(steps: seq<T>)
    ensures steps[..|steps|] == steps
  {
  }
}

/** Runs with all their intermediate states. */
module Traces {
  import opened Basics
  import opened Scheduler
  import opened Invariants

  /** `states` are the states that `steps` goes through. */
  ghost predicate IsTrace(states: seq<Pool>, steps: seq<Step>) {
    |states| == |steps| + 1 && forall i :: 0 <= i < |steps| ==> states[i + 1] == Apply(states[i], steps[i])
  }

  function TimeAt(steps: seq<Step>, k: nat, t: Time): Time
    requires k <= |steps|
  {
    if k == 0 then t else steps[k - 1].now
  }

  lemma {:induction false} TimedAt(steps: seq<Step>, t: Time, k: nat)
    requires Timed(steps, t) && k < |steps|
    ensures TimeAt(steps, k, t) <= steps[k].now
    ensures t <= steps[k].now
    decreases |steps|
  {
    if k > 0 {
      TimedAt(steps[1..], steps[0].now, k - 1);
    }
  }

  /** A trace ends where the run ends. */
  lemma {:induction false} TraceIsRun(states: seq<Pool>, steps: seq<Step>)
    requires IsTrace(states, steps)
    ensures states[|steps|] == Run(states[0], steps)
    decreases |steps|
  {
    if steps != [] {
      TraceIsRun(states[1..], steps[1..]);
    }
  }

  /** The invariant holds at every point of a trace. */
  lemma {:induction false} TraceKeeps(states: seq<Pool>, steps: seq<Step>, t: Time, k: nat)
    requires IsTrace(states, steps) && Timed(steps, t) && AllProper(steps) && Invariant(states[0], t) && k <= |steps|
    ensures Invariant(states[k], TimeAt(steps, k, t))
    decreases k
  {
    if k > 0 {
      TraceKeeps(states, steps, t, k - 1);
      TimedAt(steps, t, k - 1);
      StepKeeps(states[k - 1], steps[k - 1], TimeAt(steps, k - 1, t));
    }
  }
}

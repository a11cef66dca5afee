/** How faults come and go: exactly when a pool that is closed to traffic opens again. */
module Faults {
  import opened Scheduler
  import opened Invariants
  import opened Traces
  import opened Durable
  import opened Durability

  predicate SavesFlawlessly(p: Pool, step: Step) {
    SavesUnderFault(p, step) && step.save == Flawless
  }

  predicate SaveFails(p: Pool, step: Step) {
    SavesUnderFault(p, step) && step.save != Flawless
  }

  /** While a fault is set: a failed save makes it a write fault, whatever it was, reconfigurations
      included. Otherwise only the dispatcher sets another fault, and only a flawless save lifts a fault. */
  lemma FaultMovesExactly(p: Pool, step: Step)
    requires Proper(step) && p.fault != NoFault
    ensures Apply(p, step).fault == StateWriteFailed <==>
            SaveFails(p, step) || (p.fault == StateWriteFailed && !SavesFlawlessly(p, step) && !step.FaultStep?)
    ensures Apply(p, step).fault == NoFault <==>
            SavesFlawlessly(p, step) && (p.fault == StateWriteFailed || step.ReconfigureStep?)
    ensures Apply(p, step).fault !in {NoFault, StateWriteFailed} ==> Apply(p, step).fault == if step.FaultStep? then step.fault else p.fault
  {
  }

  /** Under any other fault: exactly when it turns into a write fault, which a later save can lift. */
  lemma WriteFaultRaisedExactly(p: Pool, step: Step)
    requires Proper(step) && p.fault !in {NoFault, StateWriteFailed}
    ensures Apply(p, step).fault == StateWriteFailed <==> SaveFails(p, step)
  {
    FaultMovesExactly(p, step);
  }

  /** As long as no step opens the pool, a write fault comes from a failed save and stays until the
      dispatcher sets another fault. */
  lemma WriteFaultStep(p: Pool, step: Step)
    requires Proper(step) && p.fault != NoFault && Apply(p, step).fault != NoFault
    ensures Apply(p, step).fault == StateWriteFailed <==> SaveFails(p, step) || (p.fault == StateWriteFailed && !step.FaultStep?)
  {
    FaultMovesExactly(p, step);
  }

  lemma LiftStep(p: Pool, step: Step)
    requires Proper(step) && p.fault != NoFault
    ensures Apply(p, step).fault == NoFault <==> SavesFlawlessly(p, step) && (step.ReconfigureStep? || p.fault == StateWriteFailed)
  {
    FaultMovesExactly(p, step);
  }

  ghost predicate AlwaysFaulted(states: seq<Pool>, k: nat)
    requires k < |states|
  {
    forall m :: 0 <= m <= k ==> states[m].fault != NoFault
  }

  /** The save of step `i` fails, and the dispatcher sets no fault between then and state `k`. */
  ghost predicate FailedAt(states: seq<Pool>, steps: seq<Step>, i: nat, k: nat)
    requires i < k <= |steps| < |states|
  {
    SaveFails(states[i], steps[i]) && forall j :: i < j < k ==> !steps[j].FaultStep?
  }

  ghost predicate FailedBefore(states: seq<Pool>, steps: seq<Step>, k: nat)
    requires k <= |steps| < |states|
  {
    exists i :: 0 <= i < k && FailedAt(states, steps, i, k)
  }

  /** Step `j` saves flawlessly, and either reconfigures or follows a failed save. */
  ghost predicate LiftsAt(states: seq<Pool>, steps: seq<Step>, j: nat)
    requires j < |steps| < |states|
  {
    SavesFlawlessly(states[j], steps[j]) && (steps[j].ReconfigureStep? || FailedBefore(states, steps, j))
  }

  ghost predicate NeverLifted(states: seq<Pool>, steps: seq<Step>, k: nat)
    requires k <= |steps| < |states|
  {
    forall j :: 0 <= j < k ==> !LiftsAt(states, steps, j)
  }

  lemma OneStateMore(states: seq<Pool>, steps: seq<Step>, k: nat)
    requires k < |steps| < |states|
    ensures AlwaysFaulted(states, k + 1) <==> AlwaysFaulted(states, k) && states[k + 1].fault != NoFault
    ensures NeverLifted(states, steps, k + 1) <==> NeverLifted(states, steps, k) && !LiftsAt(states, steps, k)
  {
  }

  lemma FailedStep(states: seq<Pool>, steps: seq<Step>, k: nat)
    requires k < |steps| < |states|
    ensures FailedBefore(states, steps, k + 1) <==>
            SaveFails(states[k], steps[k]) || (FailedBefore(states, steps, k) && !steps[k].FaultStep?)
  {
    if SaveFails(states[k], steps[k]) {
      assert FailedAt(states, steps, k, k + 1);
    }
    if FailedBefore(states, steps, k) && !steps[k].FaultStep? {
      var i :| 0 <= i < k && FailedAt(states, steps, i, k);
      assert FailedAt(states, steps, i, k + 1);
    }
    if FailedBefore(states, steps, k + 1) {
      var i :| 0 <= i < k + 1 && FailedAt(states, steps, i, k + 1);
      assert i < k ==> FailedAt(states, steps, i, k);
    }
  }

  /** As long as the pool has stayed faulted, its fault is a write fault exactly after a failed save. */
  lemma {:induction false} WriteFaultExactly(states: seq<Pool>, steps: seq<Step>, k: nat)
    requires IsTrace(states, steps) && k <= |steps| && AllProper(steps)
    requires states[0].fault != StateWriteFailed && AlwaysFaulted(states, k)
    ensures states[k].fault == StateWriteFailed <==> FailedBefore(states, steps, k)
    decreases k
  {
    if k > 0 {
      WriteFaultExactly(states, steps, k - 1);
      FailedStep(states, steps, k - 1);
      var p, step := states[k - 1], steps[k - 1];
      assert states[k] == Apply(p, step);
      WriteFaultStep(p, step);
    }
  }

  /** Over any run from a pool with another fault than a write fault: it stays closed to traffic exactly as
      long as there is no flawless save that reconfigures, or that follows a failed save with no fault
      set by the dispatcher between the two. */
  lemma {:induction false} FaultLastsExactly(states: seq<Pool>, steps: seq<Step>, k: nat)
    requires IsTrace(states, steps) && k <= |steps| && AllProper(steps)
    requires states[0].fault !in {NoFault, StateWriteFailed}
    ensures AlwaysFaulted(states, k) <==> NeverLifted(states, steps, k)
    decreases k
  {
    if k > 0 {
      FaultLastsExactly(states, steps, k - 1);
      OneStateMore(states, steps, k - 1);
      if AlwaysFaulted(states, k - 1) {
        WriteFaultExactly(states, steps, k - 1);
        LiftStep(states[k - 1], steps[k - 1]);
      }
    }
  }
}

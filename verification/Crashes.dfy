/** What a crash leaves behind at any point of a run, with or without a fault. */
module Crashes {
  import opened Basics
  import opened Accounts
  import opened Durable
  import opened Scheduler
  import opened Invariants
  import opened Traces
  import opened Blocks

  lemma SaveIsWhole(p: Pool, f: SaveFault)
    requires p.store.Attached?
    ensures var q := Save(p, f).0;
            q.mem == p.mem && q.store.Attached? && (q.store.contents == p.store.contents || q.store.contents == Written(q.mem))
  {
  }

  /** A step leaves the file as it is, or replaces it by the whole memory. */
  lemma FileStep(p: Pool, step: Step, t: Time)
    requires Invariant(p, t) && t <= step.now && Proper(step) && p.store.Attached?
    ensures var q := Apply(p, step);
            q.store.Attached? && (q.store.contents == p.store.contents || q.store.contents == Written(q.mem))
  {
    InvariantLater(p, t, step.now);
    match step
    case PickStep(req, now, f) => PickKeeps(p, req, now, f);
    case GuardStep(model, forwarded, now) => GuardChangesNothing(p, model, forwarded, t, now);
    case ObserveStep(rec, c, now, f) =>
      if Accepted(p, rec) {
        SaveIsWhole(p.(mem := Absorb(p.mem, p.cfg, p.byAuthID[rec.authID], rec, c, now)), f);
      }
    case ResumeStep(name, confirm, now, f) =>
      if Resumes(p, name, confirm) {
        SaveIsWhole(Forgiven(p, p.cfg.accounts[LabelIndex(p.cfg.accounts, name)].fingerprint, now), f);
      }
    case ReconfigureStep(cfg, now, f) => SaveIsWhole(Reconfigured(p, cfg, now), f);
    case CloseStep(now, f) => SaveIsWhole(p.(closed := true), f);
    case FaultStep(fault, now) =>
  }

  /** The file of `p` holds the whole memory of `q`. */
  ghost predicate FileIsMemory(p: Pool, q: Pool) {
    p.store == Attached(Written(q.mem))
  }

  /** At every point of a run, whatever fails and whatever faults are set, the file is the one that the
      run started with, or the whole memory of one earlier state and unchanged since then. */
  lemma {:induction false} FileIsEarlierMemory(states: seq<Pool>, steps: seq<Step>, t: Time, k: nat)
    requires IsTrace(states, steps) && Timed(steps, t) && AllProper(steps) && Invariant(states[0], t) && k <= |steps|
    requires states[0].store.Attached?
    ensures states[k].store.Attached?
    ensures states[k].store == states[0].store || exists j :: 0 < j <= k && SavedAt(states, j, k)
    decreases k
  {
    if k > 0 {
      FileIsEarlierMemory(states, steps, t, k - 1);
      TraceKeeps(states, steps, t, k - 1);
      TimedAt(steps, t, k - 1);
      FileStep(states[k - 1], steps[k - 1], TimeAt(steps, k - 1, t));
      if states[k].store == states[k - 1].store {
        if states[k].store != states[0].store {
          var j :| 0 < j <= k - 1 && SavedAt(states, j, k - 1);
          assert SavedAt(states, j, k);
        }
      } else {
        assert SavedAt(states, k, k);
      }
    }
  }

  /** The memory of state `j` was saved, and the file has not changed from then to state `k`. */
  ghost predicate SavedAt(states: seq<Pool>, j: nat, k: nat)
    requires k < |states|
  {
    j <= k && FileIsMemory(states[j], states[j]) && forall i :: j <= i <= k ==> states[i].store == states[j].store
  }

  /** Every record is as in `q`. */
  ghost predicate SameRecordsAs(p: Pool, q: Pool) {
    forall h :: KeyOf(p.mem, h) == KeyOf(q.mem, h)
  }

  /** A crash at any point of a run from an opened pool, also under a fault or in the middle of a save:
      if the file can be loaded, the new pool has all records of one state that the run went
      through. Only what was not saved since that state is lost, and nothing is mixed. */
  lemma CrashFindsEarlierState(cfg: Configuration, c: Contents, states: seq<Pool>, steps: seq<Step>, t: Time, k: nat)
    requires t > 0 && GoodConfiguration(cfg) && GoodContents(c, t) && Load(c, true).Some?
    requires IsTrace(states, steps) && Timed(steps, t) && AllProper(steps) && k <= |steps|
    requires states[0] == Opened(cfg, Load(c, true).value, c)
    requires Load(FileOf(states[k]), true).Some?
    ensures exists j :: 0 <= j <= k && SameRecordsAs(Reopened(states[k]), states[j])
  {
    OpenedIsGood(cfg, c, true, t);
    FileIsEarlierMemory(states, steps, t, k);
    ReopenedRecords(states[k]);
    if states[k].store == states[0].store {
      forall h
        ensures KeyOf(Reopened(states[k]).mem, h) == KeyOf(states[0].mem, h)
      {
        OpenedRecord(cfg, c, true, h);
      }
      assert SameRecordsAs(Reopened(states[k]), states[0]);
    } else {
      var j :| 0 < j <= k && SavedAt(states, j, k);
      assert SameRecordsAs(Reopened(states[k]), states[j]);
    }
  }

  function FileOf(p: Pool): Contents {
    if p.store.Attached? then p.store.contents else Missing
  }

  /** The pool after a restart with the same configuration. */
  function Reopened(p: Pool): Pool {
    match Load(FileOf(p), true)
    case Some(s) => Opened(p.cfg, s, FileOf(p))
    case None => FaultedPool(p.cfg, StateUnavailable)
  }

  lemma ReopenedRecords(p: Pool)
    requires Load(FileOf(p), true).Some?
    ensures forall h :: KeyOf(Reopened(p).mem, h) == KeyOf(OnDisk(FileOf(p)), h)
  {
    forall h
      ensures KeyOf(Reopened(p).mem, h) == KeyOf(OnDisk(FileOf(p)), h)
    {
      OpenedRecord(p.cfg, FileOf(p), true, h);
    }
  }
}

/** The generation barrier: outcomes of work that was requested before a quota reset or a resume never
    count against a key, and exactly what takes a barrier down. */
module Barriers {
  import opened Basics
  import opened Failures
  import opened Accounts
  import opened Durable
  import opened Scheduler
  import opened Traces
  import opened Blocks

  // ---------------------------------------------------------------- the generation barrier

  /** A failure from before the barrier changes one counter of one key, and nothing else. */
  lemma StaleFailureOnlyCounts(p: Pool, rec: Usage, c: Classification, now: Time, f: SaveFault)
    requires Accepted(p, rec) && rec.failed
    requires Ignored(KeyOf(p.mem, p.byAuthID[rec.authID]), rec)
    ensures var h := p.byAuthID[rec.authID];
            var k := p.mem.keys[h];
            Observe(p, rec, c, now, f).0.mem == p.mem.(keys := p.mem.keys[h := k.(failed := Bump(k.failed))])
  {
  }

  /** The step lowers the barrier of the key below `u`: a resume of the key before `u`, or a believed
      quota failure of it with a reset before `u`. */
  predicate Breaches(p: Pool, step: Step, h: string, u: Time) {
    || (ResumesKey(p, step, h) && step.now < u)
    || (step.ObserveStep? && CreditsKey(p, step, h) && Effective(KeyOf(p.mem, h), step.rec, step.now)
        && step.class_.kind == Quota && step.now < step.class_.until < u)
  }

  lemma BarrierStep(p: Pool, step: Step, h: string, u: Time)
    requires KeyOf(p.mem, h).ignoreBefore >= u > 0
    ensures KeyOf(Apply(p, step).mem, h).ignoreBefore < u <==> Breaches(p, step, h, u)
  {
    KeyFrame(p, step, h);
  }

  /** Exactly when a step lowers a barrier that is set. A record that does so claims to have been
      requested after the moment at which it is observed. */
  lemma BarrierFallsExactly(p: Pool, step: Step, h: string)
    requires KeyOf(p.mem, h).ignoreBefore > 0
    ensures KeyOf(Apply(p, step).mem, h).ignoreBefore < KeyOf(p.mem, h).ignoreBefore <==>
            Breaches(p, step, h, KeyOf(p.mem, h).ignoreBefore)
    ensures Breaches(p, step, h, KeyOf(p.mem, h).ignoreBefore) && step.ObserveStep? ==> step.rec.requestedAt > step.now
  {
    BarrierStep(p, step, h, KeyOf(p.mem, h).ignoreBefore);
  }

  /** The barrier of the key is at `u` or later in the first `k + 1` states. */
  ghost predicate Holds(states: seq<Pool>, h: string, u: Time, k: nat)
    requires k < |states|
  {
    forall j :: 0 <= j <= k ==> KeyOf(states[j].mem, h).ignoreBefore >= u
  }

  ghost predicate Unbreached(states: seq<Pool>, steps: seq<Step>, h: string, u: Time, k: nat)
    requires k <= |steps| < |states|
  {
    forall i :: 0 <= i < k ==> !Breaches(states[i], steps[i], h, u)
  }

  /** Over a whole run: a barrier at `u` or later stays there exactly as long as no step breaches it. */
  lemma {:induction false} BarrierHoldsExactly(states: seq<Pool>, steps: seq<Step>, h: string, u: Time, k: nat)
    requires IsTrace(states, steps) && k <= |steps| && u > 0
    requires KeyOf(states[0].mem, h).ignoreBefore >= u
    ensures Holds(states, h, u, k) <==> Unbreached(states, steps, h, u, k)
    decreases k
  {
    if k > 0 {
      BarrierHoldsExactly(states, steps, h, u, k - 1);
      if Holds(states, h, u, k - 1) {
        BarrierStep(states[k - 1], steps[k - 1], h, u);
      }
      assert Holds(states, h, u, k) <==> Holds(states, h, u, k - 1) && KeyOf(states[k].mem, h).ignoreBefore >= u;
      assert Unbreached(states, steps, h, u, k) <==> Unbreached(states, steps, h, u, k - 1) && !Breaches(states[k - 1], steps[k - 1], h, u);
    }
  }

  /** In terms of stamps: without a resume of the key, and with no failure credited to it that is stamped
      both at `u` or later and in the future, no step breaches the barrier. */
  lemma {:induction false} HonestRunsDoNotBreach(states: seq<Pool>, steps: seq<Step>, h: string, u: Time, k: nat)
    requires IsTrace(states, steps) && k <= |steps| && u > 0
    requires KeyOf(states[0].mem, h).ignoreBefore >= u
    requires forall i :: 0 <= i < k ==> !ResumesKey(states[i], steps[i], h)
    requires forall i :: 0 <= i < k && CreditsKey(states[i], steps[i], h) && steps[i].rec.failed ==>
                           steps[i].rec.requestedAt < u || steps[i].rec.requestedAt <= steps[i].now
    ensures Unbreached(states, steps, h, u, k)
    decreases k
  {
    if k > 0 {
      HonestRunsDoNotBreach(states, steps, h, u, k - 1);
      BarrierHoldsExactly(states, steps, h, u, k - 1);
      BarrierFallsExactly(states[k - 1], steps[k - 1], h);
    }
  }

  lemma ResumeBarrierStep(p: Pool, step: Step, h: string, r: Time)
    requires KeyOf(p.mem, h).ignoreBefore >= r && step.now >= r
    ensures KeyOf(Apply(p, step).mem, h).ignoreBefore >= r
  {
    KeyFrame(p, step, h);
  }

  /** After a resume at time `r` the barrier never again falls below `r`, in any run whatever the
      stamps of its records, with later resumes included. */
  lemma {:induction false} ResumeBarrierHolds(states: seq<Pool>, steps: seq<Step>, h: string, r: Time, k: nat)
    requires IsTrace(states, steps) && k <= |steps| && Timed(steps, r) && r > 0
    requires KeyOf(states[0].mem, h).ignoreBefore >= r
    ensures KeyOf(states[k].mem, h).ignoreBefore >= r
    decreases k
  {
    if k > 0 {
      ResumeBarrierHolds(states, steps, h, r, k - 1);
      TimedAt(steps, r, k - 1);
      ResumeBarrierStep(states[k - 1], steps[k - 1], h, r);
    }
  }

  /** A resume that is carried out frees its account at once and for good, whatever the outcome of
      its save. It moves neither the current account nor the cursor and touches no other key. */
  lemma ResumeFreesAccount(p: Pool, name: string, confirm: string, now: Time, f: SaveFault, later: Time)
    requires Resumes(p, name, confirm) && later >= 0
    ensures var (q, ok) := Resume(p, name, confirm, now, f);
            var i := LabelIndex(p.cfg.accounts, name);
            && IsEligible(q.mem, q.cfg.accounts, i, later)
            && q.mem.current == p.mem.current && q.mem.cursor == p.mem.cursor
            && (forall h :: h != p.cfg.accounts[i].fingerprint ==> KeyOf(q.mem, h) == KeyOf(p.mem, h))
            && (ok <==> p.store.Attached? && f == Flawless)
  {
  }

  /** The step believes a quota failure of this key, which lasts until `u`. */
  ghost predicate MarksQuota(p: Pool, step: Step, h: string, u: Time) {
    && step.ObserveStep? && CreditsKey(p, step, h) && Effective(KeyOf(p.mem, h), step.rec, step.now)
    && step.class_.kind == Quota && step.class_.until == u > step.now
  }

  /** What a quota mark with expiry `u` does: the key is exhausted until `u` and not a moment longer on
      its account, its barrier is at `u`, and it is not current any more. */
  lemma QuotaMarkBlocksAndBars(p: Pool, step: Step, h: string, u: Time)
    requires MarksQuota(p, step, h, u)
    ensures var q := Apply(p, step);
            && (forall now :: VerdictOf(KeyOf(q.mem, h), false, now) == Exhausted <==> now < u)
            && KeyOf(q.mem, h).ignoreBefore == u
            && (h in Fingerprints(p.cfg.accounts) && h != "" ==> q.mem.current != h)
  {
    KeyFrame(p, step, h);
    var m := Credited(p.mem, p.cfg, h, step.rec, step.class_, step.now).(cursor := h);
    var next := Next(m, p.cfg.accounts, h, step.now);
    assert h in Fingerprints(p.cfg.accounts) ==> p.cfg.accounts != [];
    assert next.Some? ==> IsEligible(m, p.cfg.accounts, next.value, step.now);
  }

  /** Late failures of an exhausted generation: after a quota mark with expiry `u`, any run that does
      not breach the barrier, and any failure of the key requested before `u`, the failure
      changes one counter only. It neither advances again nor extends the cooldown. */
  lemma LateFailuresCannotExtendQuota(states: seq<Pool>, steps: seq<Step>, h: string, u: Time, rec: Usage, c: Classification, now: Time, f: SaveFault)
    requires |steps| > 0 && IsTrace(states, steps) && MarksQuota(states[0], steps[0], h, u) && u > 0
    requires forall i :: 1 <= i < |steps| ==> !Breaches(states[i], steps[i], h, u)
    requires var q := states[|steps|]; Accepted(q, rec) && q.byAuthID[rec.authID] == h && rec.failed && rec.requestedAt < u
    ensures var q := states[|steps|];
            Observe(q, rec, c, now, f).0.mem == q.mem.(keys := q.mem.keys[h := q.mem.keys[h].(failed := Bump(q.mem.keys[h].failed))])
  {
    QuotaMarkBlocksAndBars(states[0], steps[0], h, u);
    BarrierHoldsExactly(states[1..], steps[1..], h, u, |steps| - 1);
    assert Unbreached(states[1..], steps[1..], h, u, |steps| - 1);
    assert states[1..][|steps| - 1] == states[|steps|];
    StaleFailureOnlyCounts(states[|steps|], rec, c, now, f);
  }

  /** A resume cannot be undone by work that was in flight: after a resume of a key at time `r`, any
      run, and any failure of that key requested before `r`, the failure changes one counter only. */
  lemma InFlightFailuresCannotUndoResume(states: seq<Pool>, steps: seq<Step>, h: string, r: Time, rec: Usage, c: Classification, now: Time, f: SaveFault)
    requires |steps| > 0 && IsTrace(states, steps) && Timed(steps, r) && r > 0
    requires ResumesKey(states[0], steps[0], h) && steps[0].now == r
    requires var q := states[|steps|]; Accepted(q, rec) && q.byAuthID[rec.authID] == h && rec.failed && rec.requestedAt < r
    ensures var q := states[|steps|];
            Observe(q, rec, c, now, f).0.mem == q.mem.(keys := q.mem.keys[h := q.mem.keys[h].(failed := Bump(q.mem.keys[h].failed))])
  {
    KeyFrame(states[0], steps[0], h);
    ResumeBarrierHolds(states[1..], steps[1..], h, r, |steps| - 1);
    StaleFailureOnlyCounts(states[|steps|], rec, c, now, f);
  }
}

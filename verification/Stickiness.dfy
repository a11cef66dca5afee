/** Drain-then-switch: exactly what makes the scheduler leave its current account. */
module Stickiness {
  import opened Basics
  import opened Failures
  import opened Accounts
  import opened Durable
  import opened Scheduler
  import opened Invariants
  import opened Rotation
  import opened Traces

  /** The account is eligible and no other one is. */
  ghost predicate OnlyEligible(mem: Persisted, accounts: seq<Account>, hash: string, now: Time) {
    forall i :: 0 <= i < |accounts| ==> (IsEligible(mem, accounts, i, now) <==> accounts[i].fingerprint == hash)
  }

  /** A believed quota, auth or transient failure of the current account itself, unless its block is
      already over when it is delivered and no other account is eligible either; or a
      reconfiguration that removes or disables it. */
  ghost predicate Ousts(p: Pool, step: Step) {
    match step
    case ObserveStep(rec, c, now, _) =>
      && Accepted(p, rec) && p.byAuthID[rec.authID] == p.mem.current
      && Advances(p.mem.keys[p.mem.current], rec, c, now)
      && !OnlyEligible(Credited(p.mem, p.cfg, p.mem.current, rec, c, now), p.cfg.accounts, p.mem.current, now)
    case ReconfigureStep(cfg, _, _) =>
      && p.store.Attached? && cfg.stateDir == p.cfg.stateDir
      && Stranded(p.(cfg := cfg))
    case _ => false
  }

  lemma ChosenAgain(mem: Persisted, accounts: seq<Account>, hash: string, now: Time)
    requires GoodAccounts(accounts) && hash in Fingerprints(accounts)
    ensures Choose(mem, accounts, hash, now).current == hash <==> OnlyEligible(mem, accounts, hash, now)
  {
    IndexOfIsFirst(accounts, hash);
    var at, n := IndexOf(accounts, hash), |accounts|;
    NextIsFirstEligible(mem, accounts, hash, now);
    AfterComesLast(accounts, at);
    HashNotEmpty(accounts, at);
    var next := Next(mem, accounts, hash, now);
    if next == Some(at) {
      forall i | 0 <= i < n
        ensures IsEligible(mem, accounts, i, now) <==> accounts[i].fingerprint == hash
      {
        if i != at {
          assert Around(Start(accounts, hash), Distance(Start(accounts, hash), i, n), n) == i;
        }
      }
    } else if next.Some? {
      assert IsEligible(mem, accounts, next.value, now);
    } else {
      assert !IsEligible(mem, accounts, at, now);
    }
  }

  lemma ObserveLeavesExactly(p: Pool, rec: Usage, c: Classification, now: Time, f: SaveFault)
    requires Invariant(p, now) && p.mem.current != ""
    ensures Observe(p, rec, c, now, f).0.mem.current != p.mem.current <==> Ousts(p, ObserveStep(rec, c, now, f))
  {
    if Accepted(p, rec) && p.byAuthID[rec.authID] == p.mem.current {
      var hash := p.mem.current;
      var m := Credited(p.mem, p.cfg, hash, rec, c, now);
      ChosenAgain(m.(cursor := hash), p.cfg.accounts, hash, now);
      EligibilityIgnoresCursor(m, p.cfg.accounts, hash, now);
    }
  }

  lemma EligibilityIgnoresCursor(m: Persisted, accounts: seq<Account>, hash: string, now: Time)
    ensures OnlyEligible(m.(cursor := hash), accounts, hash, now) <==> OnlyEligible(m, accounts, hash, now)
  {
  }

  lemma RehouseLeavesExactly(q: Pool, now: Time)
    requires GoodAccounts(q.cfg.accounts) && q.mem.current != ""
    ensures Rehoused(q, now).mem.current != q.mem.current <==> Stranded(q)
  {
    var accounts, mem := q.cfg.accounts, q.mem.(current := "");
    if Stranded(q) && accounts != [] {
      var next := Next(mem, accounts, mem.cursor, now);
      if next.Some? {
        IndexOfUnique(accounts, next.value);
        assert !accounts[next.value].disabled;
      }
    }
  }

  lemma ReconfigureLeavesExactly(p: Pool, cfg: Configuration, now: Time, f: SaveFault)
    requires p.mem.current != "" && GoodConfiguration(cfg)
    ensures Reconfigure(p, cfg, now, f).0.mem.current != p.mem.current <==> Ousts(p, ReconfigureStep(cfg, now, f))
  {
    var q := Install(p, cfg).(fault := NoFault);
    RehouseLeavesExactly(q, now);
    assert Stranded(q) <==> Stranded(p.(cfg := cfg));
  }

  /** A nonempty current account is left by exactly these steps. Picks, guards, successes, rate
      limits, resumes, candidate omission, failures of other accounts and the recovery of earlier
      ones never move it, and neither do failing saves. */
  lemma CurrentLeftExactly(p: Pool, step: Step, t: Time)
    requires Invariant(p, t) && t <= step.now && Proper(step) && p.mem.current != ""
    ensures Apply(p, step).mem.current != p.mem.current <==> Ousts(p, step)
  {
    InvariantLater(p, t, step.now);
    match step
    case PickStep(req, now, f) => PickCurrentChangesNothing(p, req, now, now);
    case ObserveStep(rec, c, now, f) => ObserveLeavesExactly(p, rec, c, now, f);
    case GuardStep(model, forwarded, now) => GuardChangesNothing(p, model, forwarded, now, now);
    case ReconfigureStep(cfg, now, f) => ReconfigureLeavesExactly(p, cfg, now, f);
    case _ =>
  }

  /** Going round from the account behind `after`, `hash` is the first eligible one. */
  ghost predicate FirstEligibleAfter(mem: Persisted, accounts: seq<Account>, after: string, hash: string, now: Time) {
    exists i :: 0 <= i < |accounts| && accounts[i].fingerprint == hash && IsFirst(mem, accounts, after, i, now)
  }

  ghost predicate IsFirst(mem: Persisted, accounts: seq<Account>, after: string, i: nat, now: Time)
    requires i < |accounts|
  {
    var n, start := |accounts|, Start(accounts, after);
    && IsEligible(mem, accounts, i, now)
    && forall k :: 0 <= k < n && Distance(start, k, n) < Distance(start, i, n) ==> !IsEligible(mem, accounts, k, now)
  }

  /** What is current after leaving `after`: the first eligible account behind it. There is none exactly
      when none is eligible, and then the cursor stays on the account that was left. */
  ghost predicate Succeeds(q: Persisted, accounts: seq<Account>, after: string, now: Time) {
    && (q.current == "" <==> !AnyEligible(q, accounts, now))
    && (q.current == "" ==> q.cursor == after)
    && (q.current != "" ==> q.cursor == q.current && FirstEligibleAfter(q, accounts, after, q.current, now))
  }

  lemma ChooseGoesRound(m: Persisted, accounts: seq<Account>, after: string, now: Time)
    requires GoodAccounts(accounts) && accounts != [] && m.cursor == after
    ensures Succeeds(Choose(m, accounts, after, now), accounts, after, now)
  {
    var q := Choose(m, accounts, after, now);
    NextIsFirstEligible(m, accounts, after, now);
    SameRecords(m, q, accounts, now);
    var next := Next(m, accounts, after, now);
    if next.Some? {
      HashNotEmpty(accounts, next.value);
      assert IsFirst(q, accounts, after, next.value, now);
    }
  }

  /** Eligibility depends on the records only. */
  lemma SameRecords(a: Persisted, b: Persisted, accounts: seq<Account>, now: Time)
    requires a.keys == b.keys
    ensures forall i :: IsEligible(a, accounts, i, now) <==> IsEligible(b, accounts, i, now)
  {
  }

  lemma OustedMemory(p: Pool, rec: Usage, c: Classification, now: Time, f: SaveFault)
    requires Ousts(p, ObserveStep(rec, c, now, f))
    ensures Observe(p, rec, c, now, f).0.mem ==
            Choose(Credited(p.mem, p.cfg, p.mem.current, rec, c, now).(cursor := p.mem.current), p.cfg.accounts, p.mem.current, now)
  {
  }

  /** Where an observation that leaves the current account goes: to the first eligible account after it
      in cyclic configuration order. There is none exactly when none is eligible, and then the
      cursor stays on the account that was left. */
  lemma LeavesForSuccessor(p: Pool, rec: Usage, c: Classification, now: Time, f: SaveFault)
    requires Invariant(p, now) && p.mem.current != "" && Ousts(p, ObserveStep(rec, c, now, f))
    ensures Succeeds(Observe(p, rec, c, now, f).0.mem, p.cfg.accounts, p.mem.current, now)
  {
    var hash := p.mem.current;
    OustedMemory(p, rec, c, now, f);
    FingerprintsEmpty(p.cfg.accounts, hash);
    ChooseGoesRound(Credited(p.mem, p.cfg, hash, rec, c, now).(cursor := hash), p.cfg.accounts, hash, now);
  }

  /** Over a whole run in one process: without such a step the current account never changes. */
  lemma {:induction false} CurrentStays(states: seq<Pool>, steps: seq<Step>, t: Time, k: nat)
    requires IsTrace(states, steps) && Timed(steps, t) && AllProper(steps) && Invariant(states[0], t)
    requires states[0].mem.current != "" && k <= |steps|
    requires forall i :: 0 <= i < k ==> !Ousts(states[i], steps[i])
    ensures states[k].mem.current == states[0].mem.current
    decreases k
  {
    if k > 0 {
      CurrentStays(states, steps, t, k - 1);
      TraceKeeps(states, steps, t, k - 1);
      TimedAt(steps, t, k - 1);
      CurrentLeftExactly(states[k - 1], steps[k - 1], TimeAt(steps, k - 1, t));
    }
  }

  /** A recovered earlier account does not preempt: what is eligible elsewhere is no step. In
      particular a rate limit keeps the current account, which then is refused, not replaced. */
  lemma RateLimitKeepsCurrent(p: Pool, rec: Usage, c: Classification, now: Time, f: SaveFault)
    requires Invariant(p, now) && p.mem.current != "" && c.kind in {RateLimit, Failure, Success}
    ensures Observe(p, rec, c, now, f).0.mem.current == p.mem.current
  {
  }
}

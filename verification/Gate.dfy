/** The request gate and the scheduler agree, and what a refusal reports is exact. */
module Gate {
  import opened Basics
  import opened Accounts
  import opened Durable
  import opened Scheduler
  import opened Reports
  import opened Invariants
  import opened Rotation
  import opened Recovery

  // ---------------------------------------------------------------- Guard against Pick

  /** What the agreement needs of a state: it holds of every state that a run reaches, and of many
      that none does. */
  ghost predicate Wellformed(p: Pool) {
    && GoodAccounts(p.cfg.accounts) && p.cfg.accounts != []
    && GoodIndex(p.byAuthID, p.cfg.accounts)
    && (p.store.NoStore? ==> p.fault != NoFault)
  }

  /** With a current account that is eligible, `Pick` hands it out. */
  lemma EligibleCurrentIsServed(p: Pool, req: Request, now: Time, f: SaveFault)
    requires Wellformed(p) && p.fault == NoFault && !p.closed && ListsAll(req, p.cfg.accounts)
    requires p.mem.current != "" && BlockedHash(p.mem, p.cfg.accounts, p.mem.current, now) == Eligible
    ensures Pick(p, req, now, f).1.Handled?
  {
  }

  lemma ChosenIsEligible(p: Pool, after: string, now: Time)
    requires Wellformed(p) && Next(p.mem, p.cfg.accounts, after, now).Some?
    ensures var m := Choose(p.mem, p.cfg.accounts, after, now);
            m.current != "" && BlockedHash(m, p.cfg.accounts, m.current, now) == Eligible
  {
    var j := Next(p.mem, p.cfg.accounts, after, now).value;
    IndexOfUnique(p.cfg.accounts, j);
    HashNotEmpty(p.cfg.accounts, j);
    assert IsEligible(p.mem, p.cfg.accounts, j, now);
  }

  /** With no current account, `Pick` serves exactly when some account is eligible. */
  lemma AbsentCurrent(p: Pool, req: Request, now: Time)
    requires Wellformed(p) && p.fault == NoFault && !p.closed && ListsAll(req, p.cfg.accounts)
    requires p.mem.current == ""
    ensures Pick(p, req, now, Flawless).1.Handled? <==> AnyEligible(p.mem, p.cfg.accounts, now)
  {
    NextIsFirstEligible(p.mem, p.cfg.accounts, p.mem.cursor, now);
    if AnyEligible(p.mem, p.cfg.accounts, now) {
      ChosenIsEligible(p, p.mem.cursor, now);
      var q := Acquire(p, now, Flawless).0;
      EligibleCurrentIsServed(q, req, now, Flawless);
      ListedIsManaged(p, req, Next(p.mem, p.cfg.accounts, p.mem.cursor, now).value);
    }
  }

  lemma GuardCurrentAgrees(p: Pool, req: Request, now: Time)
    requires Wellformed(p) && p.fault == NoFault && !p.closed && ListsAll(req, p.cfg.accounts)
    requires p.mem.current != ""
    ensures GuardCurrent(p, now).1.Admitted? <==> Pick(GuardCurrent(p, now).0, req, now, Flawless).1.Handled?
  {
    var verdict := BlockedHash(p.mem, p.cfg.accounts, p.mem.current, now);
    var q := GuardCurrent(p, now).0;
    if verdict == Eligible {
      EligibleCurrentIsServed(p, req, now, Flawless);
    } else if verdict == Suspended || verdict == Quarantined {
      NextIsFirstEligible(p.mem, p.cfg.accounts, p.mem.current, now);
      if Next(p.mem, p.cfg.accounts, p.mem.current, now).Some? {
        ChosenIsEligible(p, p.mem.current, now);
        EligibleCurrentIsServed(q, req, now, Flawless);
      } else {
        AbsentCurrent(q, req, now);
        assert forall i :: IsEligible(q.mem, q.cfg.accounts, i, now) <==> IsEligible(p.mem, p.cfg.accounts, i, now);
      }
    }
  }

  /** At one instant, the guard admits a managed request exactly when the pick that follows it, with
      every enabled account offered by the host and its save succeeding, hands out an account. This
      includes the states in which the guard itself moves or clears the current account. */
  lemma GateAgreesWithScheduler(p: Pool, model: string, req: Request, now: Time)
    requires Wellformed(p) && model in p.cfg.models && ListsAll(req, p.cfg.accounts)
    ensures Guard(p, model, true, now).1.Admitted? <==>
            Pick(Guard(p, model, true, now).0, req, now, Flawless).1.Handled?
  {
    if !p.closed && p.fault == NoFault {
      if p.mem.current != "" {
        GuardCurrentAgrees(p, req, now);
      } else {
        AbsentCurrent(p, req, now);
      }
    }
  }

  /** In particular at every point of every run, as soon as there is an account. */
  lemma GateAgreesInRuns(p: Pool, steps: seq<Step>, t: Time, model: string, req: Request, now: Time)
    requires Invariant(p, t) && Timed(steps, t) && AllProper(steps)
    requires var q := Run(p, steps); q.cfg.accounts != [] && model in q.cfg.models && ListsAll(req, q.cfg.accounts)
    ensures var q := Run(p, steps);
            Guard(q, model, true, now).1.Admitted? <==> Pick(Guard(q, model, true, now).0, req, now, Flawless).1.Handled?
  {
    RunKeeps(p, steps, t);
    GateAgreesWithScheduler(Run(p, steps), model, req, now);
  }

  // ---------------------------------------------------------------- the aggregate report

  /** The positions of the accounts with one of the given verdicts. */
  ghost function WithVerdict(mem: Persisted, accounts: seq<Account>, vs: set<Verdict>, now: Time): set<int> {
    set i | 0 <= i < |accounts| && Blocked(mem, accounts[i], now) in vs
  }

  lemma WithVerdictStep(mem: Persisted, accounts: seq<Account>, vs: set<Verdict>, now: Time)
    requires accounts != []
    ensures var n := |accounts| - 1;
            |WithVerdict(mem, accounts, vs, now)| ==
            |WithVerdict(mem, accounts[..n], vs, now)| + (if Blocked(mem, accounts[n], now) in vs then 1 else 0)
  {
    var n := |accounts| - 1;
    var front := WithVerdict(mem, accounts[..n], vs, now);
    if Blocked(mem, accounts[n], now) in vs {
      assert WithVerdict(mem, accounts, vs, now) == front + {n};
    } else {
      assert WithVerdict(mem, accounts, vs, now) == front;
    }
  }

  /** Each of the four counts is the number of accounts with its verdicts, and together they are all
      the accounts. */
  lemma {:induction false} CountsAreExact(reason: Reason, mem: Persisted, accounts: seq<Account>, now: Time)
    ensures var r := ReportOver(reason, mem, accounts, now);
            && r.eligible == |WithVerdict(mem, accounts, {Eligible}, now)|
            && r.exhausted == |WithVerdict(mem, accounts, {Exhausted}, now)|
            && r.suspended == |WithVerdict(mem, accounts, {Suspended}, now)|
            && r.unavailable == |WithVerdict(mem, accounts, {Disabled, RateLimited, Quarantined}, now)|
            && r.eligible + r.exhausted + r.suspended + r.unavailable == |accounts|
  {
    if accounts != [] {
      CountsAreExact(reason, mem, accounts[..|accounts| - 1], now);
      WithVerdictStep(mem, accounts, {Eligible}, now);
      WithVerdictStep(mem, accounts, {Exhausted}, now);
      WithVerdictStep(mem, accounts, {Suspended}, now);
      WithVerdictStep(mem, accounts, {Disabled, RateLimited, Quarantined}, now);
    }
  }

  /** One of the three expiries of an account that a report looks at. */
  predicate IsExpiry(mem: Persisted, a: Account, t: Time) {
    var k := KeyOf(mem, a.fingerprint);
    t == k.exhaustedUntil || t == k.suspendedUntil || t == k.rateLimitedUntil
  }

  /** `t` is the least of these expiries after now, or 0 when there is none. */
  ghost predicate IsRetryTime(t: Time, mem: Persisted, accounts: seq<Account>, now: Time) {
    && (forall i, u :: 0 <= i < |accounts| && IsExpiry(mem, accounts[i], u) && u > now ==> t != 0 && t <= u)
    && (t != 0 ==> t > now && exists i :: 0 <= i < |accounts| && IsExpiry(mem, accounts[i], t))
  }

  lemma {:induction false} RetryAtIsExact(reason: Reason, mem: Persisted, accounts: seq<Account>, now: Time)
    requires now >= 0
    ensures IsRetryTime(ReportOver(reason, mem, accounts, now).retryAt, mem, accounts, now)
  {
    if accounts != [] {
      var n := |accounts| - 1;
      var front := accounts[..n];
      RetryAtIsExact(reason, mem, front, now);
      var before := ReportOver(reason, mem, front, now).retryAt;
      var t := ReportOver(reason, mem, accounts, now).retryAt;
      forall i, u | 0 <= i < |accounts| && IsExpiry(mem, accounts[i], u) && u > now
        ensures t != 0 && t <= u
      {
        if i < n {
          assert front[i] == accounts[i];
        }
      }
      if t != 0 && t == before {
        var i :| 0 <= i < |front| && IsExpiry(mem, front[i], t);
        assert IsExpiry(mem, accounts[i], t);
      } else if t != 0 {
        assert IsExpiry(mem, accounts[n], t);
      }
    }
  }

  /** No account that is exhausted, suspended or rate-limited becomes eligible by time alone strictly
      before the retry time of the report. */
  lemma HeldUntilRetryTime(p: Pool, reason: Reason, now: Time, later: Time, i: nat)
    requires 0 <= now <= later && i < |p.cfg.accounts|
    requires Blocked(p.mem, p.cfg.accounts[i], now) in {Exhausted, Suspended, RateLimited}
    requires later < Unavailable(p, reason, now).retryAt
    ensures Blocked(p.mem, p.cfg.accounts[i], later) != Eligible
    ensures Unavailable(p, reason, now).retryAt > now
  {
    RetryAtIsExact(reason, p.mem, p.cfg.accounts, now);
    var k := KeyOf(p.mem, p.cfg.accounts[i].fingerprint);
    assert IsExpiry(p.mem, p.cfg.accounts[i], k.exhaustedUntil);
    assert IsExpiry(p.mem, p.cfg.accounts[i], k.suspendedUntil);
    assert IsExpiry(p.mem, p.cfg.accounts[i], k.rateLimitedUntil);
  }

  /** Exactly when a report names no retry time: when none of the three expiries is running. Transient
      quarantine does not matter for that, although an account in quarantine will recover. */
  lemma QuarantineHasNoRetryTime(p: Pool, reason: Reason, now: Time)
    requires now >= 0
    ensures Unavailable(p, reason, now).retryAt == 0 <==> forall i :: 0 <= i < |p.cfg.accounts| ==> NothingReported(p.mem, p.cfg.accounts[i], now)
    ensures forall i :: 0 <= i < |p.cfg.accounts| && Blocked(p.mem, p.cfg.accounts[i], now) == Quarantined ==>
                          && NothingReported(p.mem, p.cfg.accounts[i], now)
                          && IsEligible(p.mem, p.cfg.accounts, i, KeyOf(p.mem, p.cfg.accounts[i].fingerprint).transientUntil)
  {
    RetryAtIsExact(reason, p.mem, p.cfg.accounts, now);
    var t := Unavailable(p, reason, now).retryAt;
    forall i | 0 <= i < |p.cfg.accounts| && t == 0
      ensures NothingReported(p.mem, p.cfg.accounts[i], now)
    {
      var k := KeyOf(p.mem, p.cfg.accounts[i].fingerprint);
      assert IsExpiry(p.mem, p.cfg.accounts[i], k.exhaustedUntil) && IsExpiry(p.mem, p.cfg.accounts[i], k.suspendedUntil)
             && IsExpiry(p.mem, p.cfg.accounts[i], k.rateLimitedUntil);
    }
  }

  /** None of the three expiries that a report looks at is running. */
  predicate NothingReported(mem: Persisted, a: Account, now: Time) {
    var k := KeyOf(mem, a.fingerprint);
    k.exhaustedUntil <= now && k.suspendedUntil <= now && k.rateLimitedUntil <= now
  }
}

/** The order in which accounts are used: cyclic selection and the drain of the whole pool. */
module Rotation {
  import opened Basics
  import opened Failures
  import opened Accounts
  import opened Durable
  import opened Scheduler
  import opened Invariants
  import opened Traces

  // ---------------------------------------------------------------- cyclic selection

  /** How many places after `start` position `i` comes, going round `n` places. */
  function Distance(start: nat, i: nat, n: nat): (d: nat)
    requires start < n && i < n
    ensures d < n && Around(start, d, n) == i
  {
    if i >= start then i - start else i + n - start
  }

  lemma DistanceOfAround(start: nat, d: nat, n: nat)
    requires start < n && d < n
    ensures Distance(start, Around(start, d, n), n) == d
  {
  }

  lemma {:induction false} SearchIsFirst(mem: Persisted, accounts: seq<Account>, start: nat, j: nat, now: Time)
    requires start < |accounts|
    ensures var n, r := |accounts|, Search(mem, accounts, start, j, now);
            && (r.Some? ==>
                  && j <= Distance(start, r.value, n)
                  && forall d :: j <= d < Distance(start, r.value, n) ==> !IsEligible(mem, accounts, Around(start, d, n), now))
            && (r.None? ==> forall d :: j <= d < n ==> !IsEligible(mem, accounts, Around(start, d, n), now))
    decreases |accounts| - j
  {
    if j < |accounts| {
      DistanceOfAround(start, j, |accounts|);
      SearchIsFirst(mem, accounts, start, j + 1, now);
    }
  }

  /** The account chosen after another one is the first eligible one in cyclic configuration order,
      that one itself coming last; none is chosen exactly when none is eligible. */
  lemma NextIsFirstEligible(mem: Persisted, accounts: seq<Account>, after: string, now: Time)
    requires accounts != []
    ensures var n, start, r := |accounts|, Start(accounts, after), Next(mem, accounts, after, now);
            && (r.Some? ==>
                  && IsEligible(mem, accounts, r.value, now)
                  && forall k :: 0 <= k < n && Distance(start, k, n) < Distance(start, r.value, n) ==> !IsEligible(mem, accounts, k, now))
            && (r.None? <==> forall k :: 0 <= k < n ==> !IsEligible(mem, accounts, k, now))
            && (r.Some? <==> AnyEligible(mem, accounts, now))
  {
    var n, start := |accounts|, Start(accounts, after);
    SearchIsFirst(mem, accounts, start, 0, now);
    forall k | 0 <= k < n
      ensures Next(mem, accounts, after, now).None? ==> !IsEligible(mem, accounts, k, now)
      ensures var r := Next(mem, accounts, after, now);
              r.Some? && Distance(start, k, n) < Distance(start, r.value, n) ==> !IsEligible(mem, accounts, k, now)
    {
      assert Around(start, Distance(start, k, n), n) == k;
    }
  }

  /** The account after which a selection starts is looked at last. */
  lemma AfterComesLast(accounts: seq<Account>, i: nat)
    requires GoodAccounts(accounts) && i < |accounts|
    ensures var n := |accounts|; Distance(Start(accounts, accounts[i].fingerprint), i, n) == n - 1
  {
    IndexOfUnique(accounts, i);
  }

  // ---------------------------------------------------------------- draining the pool

  /** The account `d` places after `first` is exhausted until after `end`. */
  ghost predicate SpentAt(mem: Persisted, accounts: seq<Account>, first: nat, d: nat, end: Time)
    requires first < |accounts| && d < |accounts|
  {
    KeyOf(mem, accounts[Around(first, d, |accounts|)].fingerprint).exhaustedUntil > end
  }

  ghost predicate EligibleAt(mem: Persisted, accounts: seq<Account>, first: nat, d: nat, t: Time)
    requires first < |accounts| && d < |accounts|
  {
    IsEligible(mem, accounts, Around(first, d, |accounts|), t)
  }

  /** `k` accounts, counted from `first`, are exhausted until after `end`; the others are eligible. */
  ghost predicate DrainedKeys(mem: Persisted, accounts: seq<Account>, first: nat, k: nat, t: Time, end: Time) {
    var n := |accounts|;
    && first < n && k <= n
    && (forall d :: 0 <= d < k ==> SpentAt(mem, accounts, first, d, end))
    && (forall d :: k <= d < n ==> EligibleAt(mem, accounts, first, d, t))
  }

  /** ... and the first of the others is current, or none is left and the cursor is on the last. */
  ghost predicate Drained(p: Pool, first: nat, k: nat, t: Time, end: Time) {
    var accounts := p.cfg.accounts;
    var n := |accounts|;
    && !p.closed && p.store.Attached? && GoodAccounts(accounts)
    && DrainedKeys(p.mem, accounts, first, k, t, end)
    && (k < n ==> p.mem.current == accounts[Around(first, k, n)].fingerprint)
    && (k == n ==> p.mem.current == "" && p.mem.cursor == accounts[Around(first, n - 1, n)].fingerprint)
  }

  /** A quota failure of the current account that is believed and lasts beyond `end`. */
  ghost predicate DrainsCurrent(p: Pool, rec: Usage, c: Classification, now: Time, end: Time) {
    && Accepted(p, rec) && p.mem.current != "" && p.byAuthID[rec.authID] == p.mem.current
    && Effective(p.mem.keys[p.mem.current], rec, now)
    && c.kind == Quota && c.until > end
  }

  /** The records after the quota failure of the k-th account. */
  lemma DrainRecords(mem: Persisted, accounts: seq<Account>, first: nat, k: nat, t: Time, now: Time, end: Time, r: KeyRecord)
    requires GoodAccounts(accounts) && DrainedKeys(mem, accounts, first, k, t, end)
    requires k < |accounts| && t <= now <= end && r.exhaustedUntil > end
    ensures var hash := accounts[Around(first, k, |accounts|)].fingerprint;
            DrainedKeys(mem.(keys := mem.keys[hash := r], cursor := hash), accounts, first, k + 1, now, end)
  {
    var n := |accounts|;
    var hash := accounts[Around(first, k, n)].fingerprint;
    var m := mem.(keys := mem.keys[hash := r], cursor := hash);
    forall d | 0 <= d < n
      ensures d < k ==> SpentAt(m, accounts, first, d, end)
      ensures d > k ==> EligibleAt(m, accounts, first, d, now)
    {
      DistanceOfAround(first, d, n);
      DistanceOfAround(first, k, n);
      assert d < k ==> SpentAt(mem, accounts, first, d, end);
      assert d > k ==> EligibleAt(mem, accounts, first, d, t);
    }
    assert SpentAt(m, accounts, first, k, end);
  }

  /** ... and the selection itself: the next account in configuration order, or none. */
  lemma DrainSelects(m: Persisted, accounts: seq<Account>, first: nat, k: nat, now: Time, end: Time)
    requires GoodAccounts(accounts) && k < |accounts| && now <= end
    requires DrainedKeys(m, accounts, first, k + 1, now, end)
    ensures Next(m, accounts, accounts[Around(first, k, |accounts|)].fingerprint, now) ==
            if k + 1 < |accounts| then Some(Around(first, k + 1, |accounts|)) else None
  {
    var n := |accounts|;
    var at := Around(first, k, n);
    IndexOfUnique(accounts, at);
    var after := accounts[at].fingerprint;
    if k + 1 < n {
      assert EligibleAt(m, accounts, first, k + 1, now);
      assert Around(first, k + 1, n) == Start(accounts, after);
      assert Search(m, accounts, Start(accounts, after), 0, now) == Some(Around(Start(accounts, after), 0, n));
    } else {
      NextIsFirstEligible(m, accounts, after, now);
      forall i | 0 <= i < n
        ensures !IsEligible(m, accounts, i, now)
      {
        assert SpentAt(m, accounts, first, Distance(first, i, n), end);
      }
    }
  }

  /** The selection depends on the records only. */
  lemma DrainedKeysOnly(m: Persisted, m': Persisted, accounts: seq<Account>, first: nat, k: nat, t: Time, end: Time)
    requires m.keys == m'.keys && DrainedKeys(m, accounts, first, k, t, end)
    ensures DrainedKeys(m', accounts, first, k, t, end)
  {
    forall d | 0 <= d < |accounts|
      ensures d < k ==> SpentAt(m', accounts, first, d, end)
      ensures d >= k ==> EligibleAt(m', accounts, first, d, t)
    {
      assert d < k ==> SpentAt(m, accounts, first, d, end);
      assert d >= k ==> EligibleAt(m, accounts, first, d, t);
    }
  }

  lemma DrainStep(p: Pool, first: nat, k: nat, t: Time, end: Time, rec: Usage, c: Classification, now: Time, f: SaveFault)
    requires Drained(p, first, k, t, end) && k < |p.cfg.accounts| && t <= now <= end
    requires DrainsCurrent(p, rec, c, now, end)
    ensures Drained(Observe(p, rec, c, now, f).0, first, k + 1, now, end)
    ensures Observe(p, rec, c, now, f).0.cfg == p.cfg
  {
    var accounts, hash := p.cfg.accounts, p.mem.current;
    var r := Credit(p.mem.keys[hash], p.cfg, rec, c, now);
    var m := p.mem.(keys := p.mem.keys[hash := r], cursor := hash);
    DrainRecords(p.mem, accounts, first, k, t, now, end, r);
    DrainSelects(m, accounts, first, k, now, end);
    var m' := Choose(m, accounts, hash, now);
    DrainedKeysOnly(m, m', accounts, first, k + 1, now, end);
    assert Observe(p, rec, c, now, f).0.mem == m';
  }

  /** The step is a quota failure of the account that is current at that moment. */
  ghost predicate Drains(p: Pool, step: Step, end: Time) {
    step.ObserveStep? && step.now <= end && DrainsCurrent(p, step.rec, step.class_, step.now, end)
  }

  /** The record writes no block: it is refused, a success, stale, or a failure that blocks nothing. */
  predicate WritesNoBlock(p: Pool, rec: Usage, c: Classification, now: Time) {
    Accepted(p, rec) && Effective(p.mem.keys[p.byAuthID[rec.authID]], rec, now) ==> !Leaves(c, now) && c.kind != RateLimit
  }

  /** What happens between the quota failures of a real run: requests are picked and guarded, they succeed,
      late outcomes arrive, resumes are refused, the dispatcher sets a fault. */
  ghost predicate Quiet(p: Pool, step: Step, end: Time) {
    && step.now <= end
    && match step
       case ObserveStep(rec, c, now, _) => WritesNoBlock(p, rec, c, now)
       case ResumeStep(name, confirm, _, _) => !Resumes(p, name, confirm)
       case ReconfigureStep(_, _, _) => false
       case CloseStep(_, _) => false
       case _ => true
  }

  /** Time alone spends nothing and revives nothing before `end`. */
  lemma DrainedLater(m: Persisted, accounts: seq<Account>, first: nat, k: nat, t: Time, now: Time, end: Time)
    requires DrainedKeys(m, accounts, first, k, t, end) && t <= now
    ensures DrainedKeys(m, accounts, first, k, now, end)
  {
    forall d | k <= d < |accounts|
      ensures EligibleAt(m, accounts, first, d, now)
    {
      assert EligibleAt(m, accounts, first, d, t);
    }
  }

  predicate SameBlockTimes(k: KeyRecord, k': KeyRecord) {
    && k.exhaustedUntil == k'.exhaustedUntil && k.suspendedUntil == k'.suspendedUntil
    && k.rateLimitedUntil == k'.rateLimitedUntil && k.transientUntil == k'.transientUntil
  }

  lemma DrainedSameBlocks(m: Persisted, m': Persisted, accounts: seq<Account>, first: nat, k: nat, t: Time, end: Time)
    requires DrainedKeys(m, accounts, first, k, t, end)
    requires forall h :: SameBlockTimes(KeyOf(m, h), KeyOf(m', h))
    ensures DrainedKeys(m', accounts, first, k, t, end)
  {
    forall d | 0 <= d < |accounts|
      ensures d < k ==> SpentAt(m', accounts, first, d, end)
      ensures d >= k ==> EligibleAt(m', accounts, first, d, t)
    {
      assert d < k ==> SpentAt(m, accounts, first, d, end);
      assert d >= k ==> EligibleAt(m, accounts, first, d, t);
      assert SameBlockTimes(KeyOf(m, accounts[Around(first, d, |accounts|)].fingerprint), KeyOf(m', accounts[Around(first, d, |accounts|)].fingerprint));
    }
  }

  /** In a drained pool the current account is eligible, or there is none and none is eligible. */
  lemma DrainedVerdicts(p: Pool, first: nat, k: nat, t: Time, now: Time, end: Time)
    requires Drained(p, first, k, t, end) && t <= now <= end
    ensures p.mem.current != "" ==> BlockedHash(p.mem, p.cfg.accounts, p.mem.current, now) == Eligible
    ensures p.mem.current == "" ==> Next(p.mem, p.cfg.accounts, p.mem.cursor, now).None?
  {
    var accounts, n := p.cfg.accounts, |p.cfg.accounts|;
    if k < n {
      IndexOfUnique(accounts, Around(first, k, n));
      HashNotEmpty(accounts, Around(first, k, n));
      assert EligibleAt(p.mem, accounts, first, k, t);
    } else {
      NextIsFirstEligible(p.mem, accounts, p.mem.cursor, now);
      forall i | 0 <= i < n
        ensures !IsEligible(p.mem, accounts, i, now)
      {
        assert SpentAt(p.mem, accounts, first, Distance(first, i, n), end);
      }
    }
  }

  lemma QuietPick(p: Pool, first: nat, k: nat, t: Time, end: Time, req: Request, now: Time, f: SaveFault)
    requires Drained(p, first, k, t, end) && t <= now <= end
    ensures Pick(p, req, now, f).0 == p
  {
    DrainedVerdicts(p, first, k, t, now, end);
  }

  lemma QuietGuard(p: Pool, first: nat, k: nat, t: Time, end: Time, model: string, forwarded: bool, now: Time)
    requires Drained(p, first, k, t, end) && t <= now <= end
    ensures Guard(p, model, forwarded, now).0 == p
  {
    DrainedVerdicts(p, first, k, t, now, end);
  }

  lemma QuietObserve(p: Pool, rec: Usage, c: Classification, now: Time, f: SaveFault)
    requires WritesNoBlock(p, rec, c, now)
    ensures var q := Observe(p, rec, c, now, f).0;
            && q == p.(mem := q.mem, store := q.store, fault := q.fault) && (q.store.Attached? <==> p.store.Attached?)
            && q.mem.current == p.mem.current && q.mem.cursor == p.mem.cursor
            && forall h :: SameBlockTimes(KeyOf(p.mem, h), KeyOf(q.mem, h))
  {
  }

  /** A quiet step leaves the drain where it is, whatever its save does. */
  lemma QuietKeepsDrain(p: Pool, first: nat, k: nat, t: Time, end: Time, step: Step)
    requires Drained(p, first, k, t, end) && Quiet(p, step, end) && t <= step.now
    ensures Drained(Apply(p, step), first, k, step.now, end)
    ensures Apply(p, step).cfg == p.cfg
  {
    DrainedLater(p.mem, p.cfg.accounts, first, k, t, step.now, end);
    match step
    case PickStep(req, now, f) => QuietPick(p, first, k, t, end, req, now, f);
    case GuardStep(model, forwarded, now) => QuietGuard(p, first, k, t, end, model, forwarded, now);
    case ObserveStep(rec, c, now, f) =>
      QuietObserve(p, rec, c, now, f);
      DrainedSameBlocks(p.mem, Observe(p, rec, c, now, f).0.mem, p.cfg.accounts, first, k, now, end);
    case _ =>
  }

  ghost predicate DrainsOrQuiet(p: Pool, step: Step, end: Time) {
    Drains(p, step, end) || Quiet(p, step, end)
  }

  /** A run up to `end` in which the only effective failures are quota failures of the then-current account. */
  ghost predicate DrainTrace(states: seq<Pool>, steps: seq<Step>, t: Time, end: Time) {
    IsTrace(states, steps) && Timed(steps, t) && forall i :: 0 <= i < |steps| ==> DrainsOrQuiet(states[i], steps[i], end)
  }

  /** How many of the first `k` steps are quota failures of the then-current account. */
  ghost function DrainCount(states: seq<Pool>, steps: seq<Step>, end: Time, k: nat): nat
    requires |states| > |steps| >= k
  {
    if k == 0 then 0
    else DrainCount(states, steps, end, k - 1) + (if Drains(states[k - 1], steps[k - 1], end) then 1 else 0)
  }

  lemma DrainApply(p: Pool, first: nat, k: nat, t: Time, end: Time, step: Step)
    requires Drained(p, first, k, t, end) && Drains(p, step, end) && t <= step.now
    ensures k < |p.cfg.accounts| && Drained(Apply(p, step), first, k + 1, step.now, end)
    ensures Apply(p, step).cfg == p.cfg
  {
    DrainStep(p, first, k, t, end, step.rec, step.class_, step.now, step.save);
  }

  lemma {:induction false} DrainProgress(states: seq<Pool>, steps: seq<Step>, first: nat, t: Time, end: Time, k: nat)
    requires DrainTrace(states, steps, t, end) && Drained(states[0], first, 0, t, end) && k <= |steps|
    ensures Drained(states[k], first, DrainCount(states, steps, end, k), TimeAt(steps, k, t), end)
    ensures states[k].cfg == states[0].cfg
    decreases k
  {
    if k > 0 {
      DrainProgress(states, steps, first, t, end, k - 1);
      TimedAt(steps, t, k - 1);
      DrainMoves(states[k - 1], states[k], first, DrainCount(states, steps, end, k - 1), TimeAt(steps, k - 1, t), end, steps[k - 1]);
    }
  }

  lemma DrainMoves(p: Pool, q: Pool, first: nat, k: nat, t: Time, end: Time, step: Step)
    requires q == Apply(p, step) && Drained(p, first, k, t, end) && DrainsOrQuiet(p, step, end) && t <= step.now
    ensures Drained(q, first, k + (if Drains(p, step, end) then 1 else 0), step.now, end)
    ensures q.cfg == p.cfg
  {
    if Drains(p, step, end) {
      DrainApply(p, first, k, t, end, step);
    } else {
      QuietKeepsDrain(p, first, k, t, end, step);
    }
  }

  lemma AllEligibleIsUndrained(p: Pool, first: nat, t: Time, end: Time)
    requires Invariant(p, t) && !p.closed && p.store.Attached?
    requires first < |p.cfg.accounts| && p.mem.current == p.cfg.accounts[first].fingerprint
    requires forall i :: 0 <= i < |p.cfg.accounts| ==> IsEligible(p.mem, p.cfg.accounts, i, t)
    ensures Drained(p, first, 0, t, end)
  {
  }

  /** From a state with all accounts eligible, quota failures on the then-current account visit all
      n accounts once each, in cyclic configuration order, whatever the saves do and whatever picks,
      guards, successes and late outcomes come between them: after k < n of them the k-th successor of
      the first is current. After n there is none, there cannot be more, and the next selection starts
      from the successor of the last one, which is the first. */
  lemma PoolDrainsInOrder(states: seq<Pool>, steps: seq<Step>, first: nat, t: Time, end: Time, j: nat)
    requires DrainTrace(states, steps, t, end)
    requires Invariant(states[0], t) && !states[0].closed && states[0].store.Attached?
    requires first < |states[0].cfg.accounts| && states[0].mem.current == states[0].cfg.accounts[first].fingerprint
    requires forall i :: 0 <= i < |states[0].cfg.accounts| ==> IsEligible(states[0].mem, states[0].cfg.accounts, i, t)
    requires j <= |steps|
    ensures PointsAt(states[j].mem, states[0].cfg.accounts, first, DrainCount(states, steps, end, j))
  {
    AllEligibleIsUndrained(states[0], first, t, end);
    DrainProgress(states, steps, first, t, end, j);
    DrainedMeans(states[j], first, DrainCount(states, steps, end, j), TimeAt(steps, j, t), end);
  }

  /** The current account is the k-th successor of the first, of at most n. After n there is none, and
      the next selection starts from the first. */
  ghost predicate PointsAt(mem: Persisted, accounts: seq<Account>, first: nat, k: nat) {
    var n := |accounts|;
    && k <= n
    && (k < n ==> mem.current == accounts[(first + k) % n].fingerprint)
    && (k == n ==> mem.current == "" && Start(accounts, mem.cursor) == first)
  }

  lemma DrainedMeans(p: Pool, first: nat, k: nat, t: Time, end: Time)
    requires Drained(p, first, k, t, end)
    ensures PointsAt(p.mem, p.cfg.accounts, first, k)
  {
    var n := |p.cfg.accounts|;
    AroundIsModulo(first, k, n);
    IndexOfUnique(p.cfg.accounts, Around(first, n - 1, n));
  }

  /** The visited accounts are pairwise different and are all of them. */
  lemma DrainVisitsEachOnce(accounts: seq<Account>, first: nat)
    requires GoodAccounts(accounts) && first < |accounts|
    ensures var n := |accounts|;
            && (forall d, e :: 0 <= d < e < n ==> accounts[Around(first, d, n)].fingerprint != accounts[Around(first, e, n)].fingerprint)
            && (forall h :: h in Fingerprints(accounts) ==> exists d :: 0 <= d < n && accounts[Around(first, d, n)].fingerprint == h)
  {
    var n := |accounts|;
    forall h | h in Fingerprints(accounts)
      ensures exists d :: 0 <= d < n && accounts[Around(first, d, n)].fingerprint == h
    {
      var i :| 0 <= i < n && accounts[i].fingerprint == h;
      assert accounts[Around(first, Distance(first, i, n), n)].fingerprint == h;
    }
  }
}

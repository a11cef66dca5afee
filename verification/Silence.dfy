/** Success is non-interfering: what succeeds leaves no trace in what the scheduler decides. */
module Silence {
  import opened Basics
  import opened Failures
  import opened Accounts
  import opened Durable
  import opened Scheduler
  import opened Reports
  import opened Invariants

  // ---------------------------------------------------------------- states that differ in successes

  /** The record without its success count and last success. */
  function Forget(k: KeyRecord): KeyRecord {
    k.(success := 0, lastSuccessAt := 0)
  }

  ghost predicate SameKeys(a: map<string, KeyRecord>, b: map<string, KeyRecord>) {
    a.Keys == b.Keys && forall h :: h in a ==> Forget(a[h]) == Forget(b[h])
  }

  ghost predicate SameMemory(a: Persisted, b: Persisted) {
    a.current == b.current && a.cursor == b.cursor && SameKeys(a.keys, b.keys)
  }

  /** The two pools agree on everything but successes and what is on disk. */
  ghost predicate Same(p: Pool, q: Pool) {
    && p.cfg == q.cfg && SameMemory(p.mem, q.mem) && p.byAuthID == q.byAuthID
    && (p.store.NoStore? <==> q.store.NoStore?)
    && p.fault == q.fault && p.closed == q.closed
  }

  lemma SameKeyOf(a: Persisted, b: Persisted, h: string)
    requires SameKeys(a.keys, b.keys)
    ensures Forget(KeyOf(a, h)) == Forget(KeyOf(b, h))
  {
  }

  lemma SameBlocked(a: Persisted, b: Persisted, acc: Account, now: Time)
    requires SameKeys(a.keys, b.keys)
    ensures Blocked(a, acc, now) == Blocked(b, acc, now)
  {
  }

  lemma {:induction false} SameSearch(a: Persisted, b: Persisted, accounts: seq<Account>, start: nat, j: nat, now: Time)
    requires SameKeys(a.keys, b.keys) && (accounts != [] ==> start < |accounts|)
    ensures Search(a, accounts, start, j, now) == Search(b, accounts, start, j, now)
    decreases |accounts| - j
  {
    if j < |accounts| {
      SameBlocked(a, b, accounts[Around(start, j, |accounts|)], now);
      SameSearch(a, b, accounts, start, j + 1, now);
    }
  }

  lemma SameChoose(a: Persisted, b: Persisted, accounts: seq<Account>, after: string, now: Time)
    requires SameMemory(a, b)
    ensures SameMemory(Choose(a, accounts, after, now), Choose(b, accounts, after, now))
    ensures Next(a, accounts, after, now) == Next(b, accounts, after, now)
  {
    SameSearch(a, b, accounts, Start(accounts, after), 0, now);
  }

  lemma SameBlockedHash(a: Persisted, b: Persisted, accounts: seq<Account>, hash: string, now: Time)
    requires SameKeys(a.keys, b.keys)
    ensures BlockedHash(a, accounts, hash, now) == BlockedHash(b, accounts, hash, now)
  {
  }

  lemma SameSave(p: Pool, q: Pool)
    requires Same(p, q)
    ensures Same(Save(p, Flawless).0, Save(q, Flawless).0)
    ensures Save(p, Flawless).1 == Save(q, Flawless).1
  {
  }

  // ---------------------------------------------------------------- each method on such states

  lemma SameAcquire(p: Pool, q: Pool, now: Time)
    requires Same(p, q)
    ensures Same(Acquire(p, now, Flawless).0, Acquire(q, now, Flawless).0)
    ensures Acquire(p, now, Flawless).1 == Acquire(q, now, Flawless).1
  {
    SameChoose(p.mem, q.mem, p.cfg.accounts, p.mem.cursor, now);
    SameSave(p.(mem := Choose(p.mem, p.cfg.accounts, p.mem.cursor, now)), q.(mem := Choose(q.mem, q.cfg.accounts, q.mem.cursor, now)));
  }

  lemma SamePickCurrent(p: Pool, q: Pool, req: Request, now: Time)
    requires Same(p, q)
    ensures Same(PickCurrent(p, req, now).0, PickCurrent(q, req, now).0)
    ensures PickCurrent(p, req, now).1 == PickCurrent(q, req, now).1
  {
    var accounts := p.cfg.accounts;
    SameBlockedHash(p.mem, q.mem, accounts, p.mem.current, now);
    SameChoose(p.mem, q.mem, accounts, p.mem.current, now);
    var m, m' := Choose(p.mem, accounts, p.mem.current, now), Choose(q.mem, accounts, q.mem.current, now);
    SameBlockedHash(m, m', accounts, m.current, now);
  }

  lemma SamePick(p: Pool, q: Pool, req: Request, now: Time)
    requires Same(p, q)
    ensures Same(Pick(p, req, now, Flawless).0, Pick(q, req, now, Flawless).0)
    ensures Pick(p, req, now, Flawless).1 == Pick(q, req, now, Flawless).1
  {
    assert Managed(p, req) <==> Managed(q, req);
    if Managed(p, req) && !p.closed && p.fault == NoFault {
      SameAcquire(p, q, now);
      SamePickCurrent(Acquire(p, now, Flawless).0, Acquire(q, now, Flawless).0, req, now);
    }
  }

  lemma SameAnyEligible(p: Pool, q: Pool, now: Time)
    requires Same(p, q)
    ensures AnyEligible(p.mem, p.cfg.accounts, now) <==> AnyEligible(q.mem, q.cfg.accounts, now)
  {
    forall i | 0 <= i < |p.cfg.accounts|
      ensures IsEligible(p.mem, p.cfg.accounts, i, now) <==> IsEligible(q.mem, q.cfg.accounts, i, now)
    {
      SameBlocked(p.mem, q.mem, p.cfg.accounts[i], now);
    }
  }

  lemma SameGuard(p: Pool, q: Pool, model: string, forwarded: bool, now: Time)
    requires Same(p, q)
    ensures Same(Guard(p, model, forwarded, now).0, Guard(q, model, forwarded, now).0)
    ensures Guard(p, model, forwarded, now).1 == Guard(q, model, forwarded, now).1
  {
    SameBlockedHash(p.mem, q.mem, p.cfg.accounts, p.mem.current, now);
    SameChoose(p.mem, q.mem, p.cfg.accounts, p.mem.current, now);
    SameAnyEligible(p, q, now);
  }

  lemma SameCredit(k: KeyRecord, k': KeyRecord, cfg: Configuration, rec: Usage, c: Classification, now: Time)
    requires Forget(k) == Forget(k')
    ensures Forget(Credit(k, cfg, rec, c, now)) == Forget(Credit(k', cfg, rec, c, now))
    ensures Advances(k, rec, c, now) <==> Advances(k', rec, c, now)
  {
  }

  lemma SameAbsorb(a: Persisted, b: Persisted, cfg: Configuration, hash: string, rec: Usage, c: Classification, now: Time)
    requires SameMemory(a, b) && hash in a.keys
    ensures SameMemory(Absorb(a, cfg, hash, rec, c, now), Absorb(b, cfg, hash, rec, c, now))
  {
    SameCredit(a.keys[hash], b.keys[hash], cfg, rec, c, now);
    var m, m' := Credited(a, cfg, hash, rec, c, now), Credited(b, cfg, hash, rec, c, now);
    assert SameMemory(m, m');
    SameChoose(m.(cursor := hash), m'.(cursor := hash), cfg.accounts, hash, now);
  }

  lemma SameObserve(p: Pool, q: Pool, rec: Usage, c: Classification, now: Time)
    requires Same(p, q)
    ensures Same(Observe(p, rec, c, now, Flawless).0, Observe(q, rec, c, now, Flawless).0)
  {
    assert Accepted(p, rec) <==> Accepted(q, rec);
    if Accepted(p, rec) {
      var hash := p.byAuthID[rec.authID];
      SameAbsorb(p.mem, q.mem, p.cfg, hash, rec, c, now);
      SameSave(p.(mem := Absorb(p.mem, p.cfg, hash, rec, c, now)), q.(mem := Absorb(q.mem, q.cfg, hash, rec, c, now)));
    }
  }

  lemma SameResume(p: Pool, q: Pool, name: string, confirm: string, now: Time)
    requires Same(p, q)
    ensures Same(Resume(p, name, confirm, now, Flawless).0, Resume(q, name, confirm, now, Flawless).0)
  {
  }

  lemma SameInstall(p: Pool, q: Pool, cfg: Configuration)
    requires Same(p, q)
    ensures Same(Install(p, cfg), Install(q, cfg))
  {
    WithKeysValue(p.mem.keys, cfg.accounts);
    WithKeysValue(q.mem.keys, cfg.accounts);
  }

  lemma SameRehoused(p: Pool, q: Pool, now: Time)
    requires Same(p, q)
    ensures Same(Rehoused(p, now), Rehoused(q, now))
  {
    SameChoose(p.mem.(current := ""), q.mem.(current := ""), p.cfg.accounts, p.mem.cursor, now);
  }

  lemma SameReconfigure(p: Pool, q: Pool, cfg: Configuration, now: Time)
    requires Same(p, q)
    ensures Same(Reconfigure(p, cfg, now, Flawless).0, Reconfigure(q, cfg, now, Flawless).0)
  {
    SameInstall(p, q, cfg);
    SameRehoused(Install(p, cfg).(fault := NoFault), Install(q, cfg).(fault := NoFault), now);
    SameSave(Reconfigured(p, cfg, now), Reconfigured(q, cfg, now));
  }

  /** A refusal carries the same report. */
  lemma {:induction false} SameReport(reason: Reason, a: Persisted, b: Persisted, accounts: seq<Account>, now: Time)
    requires SameKeys(a.keys, b.keys)
    ensures ReportOver(reason, a, accounts, now) == ReportOver(reason, b, accounts, now)
  {
    if accounts != [] {
      var n := |accounts| - 1;
      SameReport(reason, a, b, accounts[..n], now);
      SameBlocked(a, b, accounts[n], now);
      SameKeyOf(a, b, accounts[n].fingerprint);
    }
  }

  // ---------------------------------------------------------------- runs

  predicate Flawlessly(step: Step) {
    match step
    case GuardStep(_, _, _) => true
    case FaultStep(_, _) => true
    case _ => step.save == Flawless
  }

  lemma SameStep(p: Pool, q: Pool, step: Step)
    requires Same(p, q) && Flawlessly(step)
    ensures Same(Apply(p, step), Apply(q, step))
  {
    match step
    case PickStep(req, now, f) => SamePick(p, q, req, now);
    case ObserveStep(rec, c, now, f) => SameObserve(p, q, rec, c, now);
    case GuardStep(model, forwarded, now) => SameGuard(p, q, model, forwarded, now);
    case ResumeStep(name, confirm, now, f) => SameResume(p, q, name, confirm, now);
    case ReconfigureStep(cfg, now, f) => SameReconfigure(p, q, cfg, now);
    case CloseStep(now, f) =>
    case FaultStep(fault, now) =>
  }

  predicate IsSuccess(step: Step) {
    step.ObserveStep? && !step.rec.failed
  }

  lemma SuccessChangesNothing(p: Pool, step: Step)
    requires IsSuccess(step) && Flawlessly(step) && p.fault != StateWriteFailed
    ensures Same(Apply(p, step), p)
  {
  }

  /** Whether a success record interferes, for every outcome of its save: it leaves the scheduler as
      it was except when it is credited and its save either raises a write fault or lifts one. */
  lemma SuccessInterferesExactly(p: Pool, step: Step)
    requires IsSuccess(step)
    ensures Same(Apply(p, step), p) <==> !Accepted(p, step.rec) || (step.save == Flawless <==> p.fault != StateWriteFailed)
  {
  }

  /** No flawless step raises a write fault. */
  lemma NoWriteFault(p: Pool, step: Step)
    requires Flawlessly(step) && Proper(step) && p.fault != StateWriteFailed
    ensures Apply(p, step).fault != StateWriteFailed
  {
  }

  /** What a caller is told, with the report that a refusal carries. */
  datatype Answer = Picked(r: PickResult, report: Option<Report>) | Guarded(r': GuardResult, report: Option<Report>)

  /** What a step answers its caller, if that is a scheduling decision: what the methods of the pool
      object return. */
  function AnswerOf(p: Pool, step: Step): seq<Answer> {
    match step
    case PickStep(req, now, f) =>
      var (q, r) := Pick(p, req, now, f);
      [Picked(r, if r.Refused? then Some(Unavailable(q, r.reason, now)) else None)]
    case GuardStep(model, forwarded, now) =>
      var (q, r) := Guard(p, model, forwarded, now);
      [Guarded(r, if r.Rejected? then Some(Unavailable(q, r.reason, now)) else None)]
    case _ => []
  }

  lemma SameAnswer(p: Pool, q: Pool, step: Step)
    requires Same(p, q) && Flawlessly(step)
    ensures AnswerOf(p, step) == AnswerOf(q, step)
  {
    match step
    case PickStep(req, now, f) =>
      SamePick(p, q, req, now);
      var (p', r) := Pick(p, req, now, f);
      if r.Refused? {
        SameReport(r.reason, p'.mem, Pick(q, req, now, f).0.mem, p'.cfg.accounts, now);
      }
    case GuardStep(model, forwarded, now) =>
      SameGuard(p, q, model, forwarded, now);
      var (p', r) := Guard(p, model, forwarded, now);
      if r.Rejected? {
        SameReport(r.reason, p'.mem, Guard(q, model, forwarded, now).0.mem, p'.cfg.accounts, now);
      }
    case _ =>
  }

  ghost function Answers(p: Pool, steps: seq<Step>): seq<Answer>
    decreases |steps|
  {
    if steps == [] then [] else AnswerOf(p, steps[0]) + Answers(Apply(p, steps[0]), steps[1..])
  }

  /** The run without its success records. */
  function WithoutSuccesses(steps: seq<Step>): seq<Step> {
    if steps == [] then []
    else (if IsSuccess(steps[0]) then [] else [steps[0]]) + WithoutSuccesses(steps[1..])
  }

  lemma SameTransitive(p: Pool, q: Pool, r: Pool)
    requires Same(p, q) && Same(q, r)
    ensures Same(p, r)
  {
  }

  /** One success record dropped, or one other step taken on both sides. */
  lemma {:induction false} SuccessesDoNotInterfereFrom(p: Pool, q: Pool, steps: seq<Step>)
    requires Same(p, q) && p.fault != StateWriteFailed
    requires forall i :: 0 <= i < |steps| ==> Flawlessly(steps[i]) && Proper(steps[i])
    ensures Answers(p, steps) == Answers(q, WithoutSuccesses(steps))
    ensures Same(Run(p, steps), Run(q, WithoutSuccesses(steps)))
    decreases |steps|
  {
    if steps != [] {
      var step, rest := steps[0], WithoutSuccesses(steps[1..]);
      NoWriteFault(p, step);
      if IsSuccess(step) {
        SuccessChangesNothing(p, step);
        SameTransitive(Apply(p, step), p, q);
        SuccessesDoNotInterfereFrom(Apply(p, step), q, steps[1..]);
        assert WithoutSuccesses(steps) == rest;
      } else {
        SameStep(p, q, step);
        SameAnswer(p, q, step);
        SuccessesDoNotInterfereFrom(Apply(p, step), Apply(q, step), steps[1..]);
        assert WithoutSuccesses(steps) == [step] + rest;
        assert ([step] + rest)[1..] == rest;
      }
    }
  }

  /** With saves succeeding, deleting every success record from a run leaves every answer of `Pick`
      and `Guard`, the current account, the cursor, the block times and the failure records as they
      are; only the success counters and the last success differ. */
  lemma SuccessesDoNotInterfere(p: Pool, steps: seq<Step>)
    requires p.fault != StateWriteFailed
    requires forall i :: 0 <= i < |steps| ==> Flawlessly(steps[i]) && Proper(steps[i])
    ensures Answers(p, steps) == Answers(p, WithoutSuccesses(steps))
    ensures Same(Run(p, steps), Run(p, WithoutSuccesses(steps)))
  {
    SuccessesDoNotInterfereFrom(p, p, steps);
  }
}

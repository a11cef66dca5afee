/** How the record of one key evolves, in memory and on disk: nothing but its own outcomes and its own
    resumes change it, and no outcome shortens a block. */
module Blocks {
  import opened Basics
  import opened Failures
  import opened Accounts
  import opened Durable
  import opened Scheduler
  import opened Invariants
  import opened Traces

  // ---------------------------------------------------------------- the record of one key

  /** A resume of this key is carried out. */
  predicate ResumesKey(p: Pool, step: Step, h: string) {
    && step.ResumeStep? && Resumes(p, step.name, step.confirm)
    && p.cfg.accounts[LabelIndex(p.cfg.accounts, step.name)].fingerprint == h
  }

  /** A record is credited to this key. */
  predicate CreditsKey(p: Pool, step: Step, h: string) {
    step.ObserveStep? && Accepted(p, step.rec) && p.byAuthID[step.rec.authID] == h
  }

  /** The record of a key after a step. */
  function KeyAfter(p: Pool, step: Step, h: string): KeyRecord {
    var k := KeyOf(p.mem, h);
    if CreditsKey(p, step, h) then Credit(k, p.cfg, step.rec, step.class_, step.now)
    else if ResumesKey(p, step, h) then Cleared(k, step.now)
    else k
  }

  lemma ReconfigureKeys(p: Pool, cfg: Configuration, now: Time, f: SaveFault, h: string)
    ensures KeyOf(Reconfigure(p, cfg, now, f).0.mem, h) == KeyOf(p.mem, h)
  {
    WithKeysValue(p.mem.keys, cfg.accounts);
    var q := Install(p, cfg).(fault := NoFault);
    ChooseKeys(q.mem.(current := ""), cfg.accounts, q.mem.cursor, now);
  }

  lemma PickKeys(p: Pool, req: Request, now: Time, f: SaveFault)
    ensures Pick(p, req, now, f).0.mem.keys == p.mem.keys
  {
    ChooseKeys(p.mem, p.cfg.accounts, p.mem.cursor, now);
    var q := Acquire(p, now, f).0;
    ChooseKeys(q.mem, q.cfg.accounts, q.mem.current, now);
  }

  lemma ObserveKeys(p: Pool, rec: Usage, c: Classification, now: Time, f: SaveFault)
    ensures Observe(p, rec, c, now, f).0.mem.keys ==
            if Accepted(p, rec) then Credited(p.mem, p.cfg, p.byAuthID[rec.authID], rec, c, now).keys else p.mem.keys
  {
  }

  /** Nothing but an accepted record of the key, or a resume of it, changes the record of a key.
      Removing a key from the configuration and adding it again keeps its record. */
  lemma KeyFrame(p: Pool, step: Step, h: string)
    ensures KeyOf(Apply(p, step).mem, h) == KeyAfter(p, step, h)
  {
    match step
    case PickStep(req, now, f) => PickKeys(p, req, now, f);
    case ObserveStep(rec, c, now, f) => ObserveKeys(p, rec, c, now, f);
    case GuardStep(model, forwarded, now) => ChooseKeys(p.mem, p.cfg.accounts, p.mem.current, now);
    case ReconfigureStep(cfg, now, f) => ReconfigureKeys(p, cfg, now, f, h);
    case _ =>
  }

  /** The configuration changes by reconfiguration only. */
  lemma CfgFrame(p: Pool, step: Step)
    ensures Apply(p, step).cfg == p.cfg || (step.ReconfigureStep? && Apply(p, step).cfg == step.cfg)
  {
  }

  /** The file is left as it is, or holds the records that are in memory after the step. */
  ghost predicate FileFollows(p: Pool, q: Pool) {
    && (q.store.Attached? <==> p.store.Attached?)
    && (p.store.Attached? ==>
          q.store.contents == p.store.contents || (q.store.contents.Written? && q.store.contents.state.keys == q.mem.keys))
  }

  lemma SaveFrame(p: Pool, f: SaveFault)
    ensures FileFollows(p, Save(p, f).0) && Save(p, f).0.mem == p.mem
  {
  }

  lemma PickFrame(p: Pool, req: Request, now: Time, f: SaveFault)
    ensures FileFollows(p, Pick(p, req, now, f).0)
  {
    var m := Choose(p.mem, p.cfg.accounts, p.mem.cursor, now);
    SaveFrame(p.(mem := m), f);
    var q := Acquire(p, now, f).0;
    ChooseKeys(q.mem, q.cfg.accounts, q.mem.current, now);
  }

  lemma FileFrame(p: Pool, step: Step)
    ensures FileFollows(p, Apply(p, step))
  {
    match step
    case PickStep(req, now, f) => PickFrame(p, req, now, f);
    case ObserveStep(rec, c, now, f) =>
      if Accepted(p, rec) {
        SaveFrame(p.(mem := Absorb(p.mem, p.cfg, p.byAuthID[rec.authID], rec, c, now)), f);
      }
    case ResumeStep(name, confirm, now, f) =>
      if Resumes(p, name, confirm) {
        SaveFrame(Forgiven(p, p.cfg.accounts[LabelIndex(p.cfg.accounts, name)].fingerprint, now), f);
      }
    case ReconfigureStep(cfg, now, f) => SaveFrame(Reconfigured(p, cfg, now), f);
    case CloseStep(now, f) => SaveFrame(p.(closed := true), f);
    case _ =>
  }

  // ---------------------------------------------------------------- what ties a key's fields together

  /** What ties the blocks of a key to its barrier and to its last failure. */
  predicate GoodKey(k: KeyRecord, d: Configuration) {
    && 0 <= k.lastFailureAt && 0 <= k.ignoreBefore
    && k.exhaustedUntil <= k.ignoreBefore
    && k.suspendedUntil <= k.lastFailureAt + d.authSuspension
    && k.transientUntil <= k.lastFailureAt + d.transientFallback
  }

  ghost predicate TiedState(s: Persisted, d: Configuration) {
    forall h :: GoodKey(KeyOf(s, h), d)
  }

  /** Every record in memory and on disk is tied, under the durations of `d`. */
  ghost predicate Tied(p: Pool, d: Configuration) {
    && SameDurations(p.cfg, d) && GoodDuration(d.authSuspension) && GoodDuration(d.transientFallback)
    && TiedState(p.mem, d)
    && (p.store.Attached? ==> TiedState(OnDisk(p.store.contents), d))
  }

  /** The step leaves the durations as they are. */
  ghost predicate KeepsDurations(step: Step, d: Configuration) {
    step.ReconfigureStep? ==> SameDurations(step.cfg, d)
  }

  lemma CreditStaysGood(k: KeyRecord, cfg: Configuration, rec: Usage, c: Classification, now: Time)
    requires GoodKey(k, cfg) && now > 0
    ensures GoodKey(Credit(k, cfg, rec, c, now), cfg)
  {
  }

  lemma KeyStaysGood(p: Pool, step: Step, d: Configuration, h: string)
    requires Tied(p, d) && step.now > 0
    ensures GoodKey(KeyOf(Apply(p, step).mem, h), d)
  {
    KeyFrame(p, step, h);
    assert GoodKey(KeyOf(p.mem, h), d);
    if CreditsKey(p, step, h) {
      assert GoodKey(KeyOf(p.mem, h), p.cfg);
      CreditStaysGood(KeyOf(p.mem, h), p.cfg, step.rec, step.class_, step.now);
    }
  }

  /** Every step keeps the ties, resumes included, whatever the stamps of the records. */
  lemma StepStaysTied(p: Pool, step: Step, d: Configuration)
    requires Tied(p, d) && step.now > 0 && KeepsDurations(step, d)
    ensures Tied(Apply(p, step), d)
  {
    var q := Apply(p, step);
    CfgFrame(p, step);
    FileFrame(p, step);
    forall h
      ensures GoodKey(KeyOf(q.mem, h), d)
      ensures q.store.Attached? ==> GoodKey(KeyOf(OnDisk(q.store.contents), h), d)
    {
      KeyStaysGood(p, step, d, h);
      assert p.store.Attached? ==> GoodKey(KeyOf(OnDisk(p.store.contents), h), d);
    }
  }

  lemma FreshStateIsTied(d: Configuration)
    requires GoodDuration(d.authSuspension) && GoodDuration(d.transientFallback)
    ensures TiedState(EmptyState, d)
  {
  }

  /** A pool that is opened on a tied file is tied: on an empty store, or on one of an earlier run. */
  lemma OpenedIsTied(cfg: Configuration, c: Contents, readable: bool, d: Configuration)
    requires SameDurations(cfg, d) && GoodDuration(d.authSuspension) && GoodDuration(d.transientFallback)
    requires Load(c, readable).Some? && TiedState(OnDisk(c), d)
    ensures Tied(Opened(cfg, Load(c, readable).value, c), d)
  {
    var p := Opened(cfg, Load(c, readable).value, c);
    forall h
      ensures GoodKey(KeyOf(p.mem, h), d)
    {
      OpenedRecord(cfg, c, readable, h);
      assert GoodKey(KeyOf(OnDisk(c), h), d);
    }
  }

  /** Opening a file changes no record. */
  lemma OpenedRecord(cfg: Configuration, c: Contents, readable: bool, h: string)
    requires Load(c, readable).Some?
    ensures KeyOf(Opened(cfg, Load(c, readable).value, c).mem, h) == KeyOf(OnDisk(c), h)
  {
    WithKeysValue(OnDisk(c).keys, cfg.accounts);
  }

  lemma {:induction false} TraceStaysTied(states: seq<Pool>, steps: seq<Step>, t: Time, d: Configuration, k: nat)
    requires IsTrace(states, steps) && Timed(steps, t) && t > 0 && k <= |steps|
    requires Tied(states[0], d) && forall i :: 0 <= i < |steps| ==> KeepsDurations(steps[i], d)
    ensures Tied(states[k], d)
    decreases k
  {
    if k > 0 {
      TraceStaysTied(states, steps, t, d, k - 1);
      TimedAt(steps, t, k - 1);
      StepStaysTied(states[k - 1], steps[k - 1], d);
    }
  }

  // ---------------------------------------------------------------- no observation shortens a block

  ghost predicate NoShorter(k: KeyRecord, k': KeyRecord) {
    && k.exhaustedUntil <= k'.exhaustedUntil && k.suspendedUntil <= k'.suspendedUntil
    && k.rateLimitedUntil <= k'.rateLimitedUntil && k.transientUntil <= k'.transientUntil
  }

  /** A believed quota failure of the key whose reset lies before the one that is running. */
  predicate ShortensQuota(p: Pool, step: Step, h: string) {
    && step.ObserveStep? && CreditsKey(p, step, h) && Effective(KeyOf(p.mem, h), step.rec, step.now)
    && step.class_.kind == Quota && step.now < step.class_.until < KeyOf(p.mem, h).exhaustedUntil
  }

  /** Without any assumption on the record or on the durations: what an observation shortens. */
  lemma CreditShortensExactly(k: KeyRecord, cfg: Configuration, rec: Usage, c: Classification, now: Time)
    ensures var observed := ObservedAt(rec, now);
            !NoShorter(k, Credit(k, cfg, rec, c, now)) <==>
            Effective(k, rec, now)
            && ((c.kind == Quota && now < c.until < k.exhaustedUntil)
                || (c.kind == Auth && observed + cfg.authSuspension < k.suspendedUntil)
                || (c.kind == Transient && observed + cfg.transientFallback < k.transientUntil))
  {
  }

  /** In every state that a run with fixed durations reaches, a step that is no resume of the key
      shortens a block of it in exactly one case, and that needs a record that claims to have been
      requested after the moment at which it is observed. */
  lemma BlockShortenedExactly(p: Pool, step: Step, h: string, d: Configuration)
    requires Tied(p, d) && step.now > 0 && !ResumesKey(p, step, h)
    ensures !NoShorter(KeyOf(p.mem, h), KeyOf(Apply(p, step).mem, h)) <==> ShortensQuota(p, step, h)
    ensures ShortensQuota(p, step, h) ==> step.rec.requestedAt > step.now
  {
    KeyFrame(p, step, h);
    var k := KeyOf(p.mem, h);
    assert GoodKey(k, d);
    if CreditsKey(p, step, h) {
      CreditShortensExactly(k, p.cfg, step.rec, step.class_, step.now);
    }
  }

  lemma NoShorterTransitive(a: KeyRecord, b: KeyRecord, c: KeyRecord)
    requires NoShorter(a, b) && NoShorter(b, c)
    ensures NoShorter(a, c)
  {
  }

  /** Records of the key carry honest stamps. */
  predicate HonestFor(p: Pool, step: Step, h: string) {
    CreditsKey(p, step, h) ==> step.rec.requestedAt <= step.now
  }

  /** From the start of a run: with a clock that does not go back, fixed durations and honest stamps on
      the records of the key, none of its four expiry times ever decreases between two points of
      the run without a resume of the key between them, whatever the order of delivery. */
  lemma {:induction false} BlocksNeverShrink(states: seq<Pool>, steps: seq<Step>, t: Time, d: Configuration, h: string, i: nat, j: nat)
    requires IsTrace(states, steps) && Timed(steps, t) && t > 0 && i <= j <= |steps|
    requires Tied(states[0], d) && forall k :: 0 <= k < |steps| ==> KeepsDurations(steps[k], d)
    requires forall k :: i <= k < j ==> HonestFor(states[k], steps[k], h) && !ResumesKey(states[k], steps[k], h)
    ensures NoShorter(KeyOf(states[i].mem, h), KeyOf(states[j].mem, h))
    decreases j
  {
    if i < j {
      BlocksNeverShrink(states, steps, t, d, h, i, j - 1);
      TraceStaysTied(states, steps, t, d, j - 1);
      TimedAt(steps, t, j - 1);
      BlockShortenedExactly(states[j - 1], steps[j - 1], h, d);
      NoShorterTransitive(KeyOf(states[i].mem, h), KeyOf(states[j - 1].mem, h), KeyOf(states[j].mem, h));
    }
  }

  /** A quota failure of `id`, requested at `at`, that names the reset `until`. */
  function QuotaFailure(id: string, at: Time, until: Time, now: Time): Step {
    ObserveStep(Usage(id, false, at, 0, true, Response(429, NoText, map[])),
                Classification(Quota, until, RetryAfterHeader, NoFallback), now, Flawless)
  }

  /** The failing input: on a fresh pool, an honest quota failure and then one that is stamped two
      seconds in the future. The second shortens the block of the first and lowers its barrier. */
  lemma FutureStampShortens(cfg: Configuration, i: nat, now: Time)
    requires GoodConfiguration(cfg) && i < |cfg.accounts| && cfg.accounts[i].authID != "" && now > 0
    ensures var a := cfg.accounts[i];
            var first, second := QuotaFailure(a.authID, now, now + 2 * SECOND, now), QuotaFailure(a.authID, now + 2 * SECOND, now + SECOND, now);
            var q := Apply(Opened(cfg, EmptyState, Missing), first);
            var k, k' := KeyOf(q.mem, a.fingerprint), KeyOf(Apply(q, second).mem, a.fingerprint);
            && Proper(first) && Proper(second)
            && k'.exhaustedUntil < k.exhaustedUntil && k'.ignoreBefore < k.ignoreBefore
  {
    var a, p := cfg.accounts[i], Opened(cfg, EmptyState, Missing);
    var first, second := QuotaFailure(a.authID, now, now + 2 * SECOND, now), QuotaFailure(a.authID, now + 2 * SECOND, now + SECOND, now);
    OpenedIsGood(cfg, Missing, true, now);
    OpenedRecord(cfg, Missing, true, a.fingerprint);
    FingerprintAt(cfg.accounts, i);
    KeyFrame(p, first, a.fingerprint);
    StepKeeps(p, first, now);
    KeyFrame(Apply(p, first), second, a.fingerprint);
  }
}

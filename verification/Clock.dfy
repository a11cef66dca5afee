/** What the clock assumption is for: exactly what goes wrong when the clock goes back. */
module Clock {
  import opened Basics
  import opened Failures
  import opened Accounts
  import opened Durable
  import opened Scheduler
  import opened Invariants
  import opened Traces
  import opened Blocks
  import opened Durability
  import opened Recovery

  // ---------------------------------------------------------------- steps at any time

  /** The step reads the current account: the second half of `Pick`, or its part of `Guard`. */
  predicate ReadsCurrent(p: Pool, step: Step) {
    && !p.closed && p.fault == NoFault && p.mem.current != ""
    && match step
       case PickStep(req, _, _) => Managed(p, req)
       case GuardStep(model, forwarded, _) => p.cfg.accounts != [] && model in p.cfg.models && forwarded
       case _ => false
  }

  /** The current account is suspended or in quarantine. */
  predicate CurrentIsDead(p: Pool, now: Time) {
    BlockedHash(p.mem, p.cfg.accounts, p.mem.current, now) in {Suspended, Quarantined}
  }

  /** The step reaches the in-line failover of `Pick` or `Guard`, which saves nothing. */
  predicate FailsOver(p: Pool, step: Step) {
    ReadsCurrent(p, step) && CurrentIsDead(p, step.now)
  }

  /** The account that an in-line failover makes current. */
  function Successor(p: Pool, now: Time): Option<nat> {
    Next(p.mem, p.cfg.accounts, p.mem.current, now)
  }

  /** The step reaches the save of an attached store. */
  predicate ReachesSave(p: Pool, step: Step) {
    && p.store.Attached?
    && match step
       case PickStep(req, now, _) =>
         && Managed(p, req) && !p.closed && p.fault == NoFault
         && p.mem.current == "" && Next(p.mem, p.cfg.accounts, p.mem.cursor, now).Some?
       case _ => SavesUnderFault(p, step)
  }

  /** What holds of a pool at `t` or earlier, whatever the clock has done: as the invariant, but the
      current account on disk may be another one. */
  ghost predicate Steady(p: Pool, t: Time) {
    Consistent(p, t) && (p.fault == NoFault ==> KeysAgree(p.store.contents, p.mem, p.cfg.accounts))
  }

  ghost predicate KeysAgree(c: Contents, mem: Persisted, accounts: seq<Account>) {
    !c.Garbage? && forall h :: h in Fingerprints(accounts) ==> KeyOf(OnDisk(c), h) == KeyOf(mem, h)
  }

  /** Disk and memory disagree, and no fault says so. */
  ghost predicate SilentlyDisagrees(q: Pool) {
    q.fault == NoFault && !(q.store.Attached? && Agrees(q.store.contents, q.mem, q.cfg.accounts))
  }

  lemma InvariantIsSteady(p: Pool, t: Time)
    requires Invariant(p, t)
    ensures Steady(p, t) && !SilentlyDisagrees(p)
  {
  }

  /** In a steady state only the current account can disagree. */
  lemma DisagreementIsCurrent(p: Pool, t: Time)
    requires Steady(p, t)
    ensures SilentlyDisagrees(p) <==>
            p.fault == NoFault && p.mem.current != "" && OnDisk(p.store.contents).current != p.mem.current
  {
  }

  lemma SelectionIsConsistent(p: Pool, after: string, now: Time, t: Time)
    requires Consistent(p, t) && now <= t && p.cfg.accounts != []
    ensures Consistent(p.(mem := Choose(p.mem, p.cfg.accounts, after, now)), t)
  {
    ChooseIsGood(p.mem, p.cfg.accounts, after, now, t);
  }

  /** A selected account is eligible, at whatever time: the second half of `Pick` then only reads. */
  lemma AcquiredStays(p: Pool, req: Request, t: Time, now: Time, f: SaveFault)
    requires Consistent(p, t) && p.fault == NoFault && p.mem.current == "" && Acquire(p, now, f).1.None?
    ensures var q := Acquire(p, now, f).0;
            && PickCurrent(q, req, now).0 == q && q.fault == NoFault
            && q.store == Attached(Written(q.mem))
  {
    var j := Next(p.mem, p.cfg.accounts, p.mem.cursor, now).value;
    IndexOfUnique(p.cfg.accounts, j);
    assert IsEligible(p.mem, p.cfg.accounts, j, now);
  }

  lemma SavingPickRestores(p: Pool, req: Request, now: Time, f: SaveFault, t: Time)
    requires Consistent(p, t) && now <= t && ReachesSave(p, PickStep(req, now, f))
    ensures Invariant(Pick(p, req, now, f).0, t)
  {
    SelectionIsConsistent(p, p.mem.cursor, now, t);
    SaveRestores(p.(mem := Choose(p.mem, p.cfg.accounts, p.mem.cursor, now)), f, t);
    if Acquire(p, now, f).1.None? {
      AcquiredStays(p, req, t, now, f);
    }
  }

  lemma ForgivenIsConsistent(p: Pool, name: string, confirm: string, now: Time, t: Time)
    requires Consistent(p, t) && Resumes(p, name, confirm)
    ensures Consistent(Forgiven(p, p.cfg.accounts[LabelIndex(p.cfg.accounts, name)].fingerprint, now), t)
  {
    var i := LabelIndex(p.cfg.accounts, name);
    FingerprintAt(p.cfg.accounts, i);
    assert Forgiven(p, p.cfg.accounts[i].fingerprint, now).mem.keys.Keys == p.mem.keys.Keys;
  }

  /** A step that reaches a save restores the whole invariant, with a fault if the save fails: at any time,
      and from any disagreement. */
  lemma SavingStepRestores(p: Pool, step: Step, t: Time)
    requires Consistent(p, t) && 0 < step.now <= t && Proper(step) && ReachesSave(p, step)
    ensures Invariant(Apply(p, step), t)
  {
    match step
    case PickStep(req, now, f) => SavingPickRestores(p, req, now, f, t);
    case ObserveStep(rec, c, now, f) =>
      var m := Absorb(p.mem, p.cfg, p.byAuthID[rec.authID], rec, c, now);
      AbsorbIsGood(p.mem, p.cfg, p.byAuthID[rec.authID], rec, c, now, t);
      SaveRestores(p.(mem := m), f, t);
    case ResumeStep(name, confirm, now, f) =>
      ForgivenIsConsistent(p, name, confirm, now, t);
      SaveRestores(Forgiven(p, p.cfg.accounts[LabelIndex(p.cfg.accounts, name)].fingerprint, now), f, t);
    case ReconfigureStep(cfg, now, f) =>
      ReconfiguredIsConsistent(p, cfg, now, t);
      SaveRestores(Reconfigured(p, cfg, now), f, t);
    case CloseStep(now, f) => SaveRestores(p.(closed := true), f, t);
    case _ =>
  }

  /** A failover changes the memory as a selection does, and nothing else. */
  lemma FailoverOnlySelects(p: Pool, step: Step)
    requires FailsOver(p, step)
    ensures Apply(p, step) == p.(mem := Choose(p.mem, p.cfg.accounts, p.mem.current, step.now))
  {
  }

  /** Every other step of a pool with a store changes nothing at all. */
  lemma IdleStep(p: Pool, step: Step)
    requires p.store.Attached? && !ReachesSave(p, step) && !FailsOver(p, step) && !step.FaultStep?
    ensures Apply(p, step) == p
  {
  }

  /** A pool without a store keeps its fault. */
  lemma StorelessStep(p: Pool, step: Step, t: Time)
    requires Consistent(p, t) && p.store.NoStore? && Proper(step)
    ensures Consistent(Apply(p, step), t) && Apply(p, step).fault != NoFault
  {
    if step.ResumeStep? && Resumes(p, step.name, step.confirm) {
      ForgivenIsConsistent(p, step.name, step.confirm, step.now, t);
    }
  }

  /** A clock that goes back breaks nothing but the agreement on the current account. */
  lemma StepStaysSteady(p: Pool, step: Step, t: Time)
    requires Steady(p, t) && 0 < step.now <= t && Proper(step)
    ensures Steady(Apply(p, step), t)
  {
    if ReachesSave(p, step) {
      SavingStepRestores(p, step, t);
    } else if FailsOver(p, step) {
      FailoverOnlySelects(p, step);
      FingerprintsEmpty(p.cfg.accounts, p.mem.current);
      SelectionIsConsistent(p, p.mem.current, step.now, t);
      ChooseKeys(p.mem, p.cfg.accounts, p.mem.current, step.now);
    } else if p.store.NoStore? {
      StorelessStep(p, step, t);
    } else if !step.FaultStep? {
      IdleStep(p, step);
    }
  }

  // ---------------------------------------------------------------- exactly when disk and memory disagree

  /** The step fails over, unsaved, to an account that is not the one on disk. */
  predicate Strays(p: Pool, step: Step) {
    && FailsOver(p, step) && p.store.Attached?
    && var i := Successor(p, step.now);
       i.Some? && p.cfg.accounts[i.value].fingerprint != OnDisk(p.store.contents).current
  }

  /** The step ends a disagreement, or puts another in its place: it saves, fails over or sets a fault. */
  predicate Settles(p: Pool, step: Step) {
    ReachesSave(p, step) || FailsOver(p, step) || step.FaultStep?
  }

  lemma FailoverDisagreesExactly(p: Pool, step: Step, t: Time)
    requires Steady(p, t) && 0 < step.now <= t && FailsOver(p, step)
    ensures SilentlyDisagrees(Apply(p, step)) <==> Strays(p, step)
  {
    FailoverOnlySelects(p, step);
    StepStaysSteady(p, step, t);
    DisagreementIsCurrent(Apply(p, step), t);
    FingerprintsEmpty(p.cfg.accounts, p.mem.current);
    var i := Successor(p, step.now);
    if i.Some? {
      HashNotEmpty(p.cfg.accounts, i.value);
    }
  }

  /** From every state that a run reaches, whatever the clock did before and does now, agreeing or not:
      after a step disk and memory silently disagree exactly when the step strays from the disk, or when
      they did before and the step does not settle that. */
  lemma AgreementBrokenExactly(p: Pool, step: Step, t: Time)
    requires Steady(p, t) && 0 < step.now <= t && Proper(step)
    ensures SilentlyDisagrees(Apply(p, step)) <==> Strays(p, step) || (SilentlyDisagrees(p) && !Settles(p, step))
  {
    if ReachesSave(p, step) {
      SavingStepRestores(p, step, t);
    } else if FailsOver(p, step) {
      FailoverDisagreesExactly(p, step, t);
    } else if p.store.NoStore? {
      StorelessStep(p, step, t);
    } else if !step.FaultStep? {
      IdleStep(p, step);
    }
  }

  /** With a clock that does not go back no step fails over, so nothing strays. */
  lemma ForwardClockNeverFailsOver(p: Pool, step: Step, t: Time)
    requires Consistent(p, t) && t <= step.now
    ensures !FailsOver(p, step) && !Strays(p, step)
  {
    if p.mem.current != "" {
      SettledVerdict(p, t, step.now);
    }
  }

  /** All steps happen at `t` or earlier, in any order of their times. */
  ghost predicate AllBefore(steps: seq<Step>, t: Time) {
    forall i :: 0 <= i < |steps| ==> 0 < steps[i].now <= t
  }

  lemma {:induction false} TraceStaysSteady(states: seq<Pool>, steps: seq<Step>, t: Time, k: nat)
    requires IsTrace(states, steps) && AllBefore(steps, t) && AllProper(steps) && Steady(states[0], t) && k <= |steps|
    ensures Steady(states[k], t)
    decreases k
  {
    if k > 0 {
      TraceStaysSteady(states, steps, t, k - 1);
      StepStaysSteady(states[k - 1], steps[k - 1], t);
    }
  }

  /** Step `i` strays, and nothing settles that before state `k`. */
  ghost predicate StrayedAt(states: seq<Pool>, steps: seq<Step>, i: nat, k: nat)
    requires i < k <= |steps| < |states|
  {
    Strays(states[i], steps[i]) && forall j :: i < j < k ==> !Settles(states[j], steps[j])
  }

  ghost predicate Strayed(states: seq<Pool>, steps: seq<Step>, k: nat)
    requires k <= |steps| < |states|
  {
    exists i :: 0 <= i < k && StrayedAt(states, steps, i, k)
  }

  lemma StrayedStep(states: seq<Pool>, steps: seq<Step>, k: nat)
    requires k < |steps| < |states|
    ensures Strayed(states, steps, k + 1) <==>
            Strays(states[k], steps[k]) || (Strayed(states, steps, k) && !Settles(states[k], steps[k]))
  {
    if Strays(states[k], steps[k]) {
      assert StrayedAt(states, steps, k, k + 1);
    }
    if Strayed(states, steps, k) && !Settles(states[k], steps[k]) {
      var i :| 0 <= i < k && StrayedAt(states, steps, i, k);
      assert StrayedAt(states, steps, i, k + 1);
    }
    if Strayed(states, steps, k + 1) {
      var i :| 0 <= i < k + 1 && StrayedAt(states, steps, i, k + 1);
      assert i < k ==> StrayedAt(states, steps, i, k);
    }
  }

  /** Over a whole run with a clock that does what it likes: disk and memory silently disagree exactly from
      a failover that strays from the disk to the next step that saves, fails over or sets a fault. */
  lemma {:induction false} DisagreementLastsExactly(states: seq<Pool>, steps: seq<Step>, t: Time, k: nat)
    requires IsTrace(states, steps) && AllBefore(steps, t) && AllProper(steps) && k <= |steps|
    requires Steady(states[0], t) && !SilentlyDisagrees(states[0])
    ensures SilentlyDisagrees(states[k]) <==> Strayed(states, steps, k)
    decreases k
  {
    if k > 0 {
      DisagreementLastsExactly(states, steps, t, k - 1);
      DisagreementAt(states, steps, t, k - 1);
      StrayedStep(states, steps, k - 1);
    }
  }

  lemma DisagreementAt(states: seq<Pool>, steps: seq<Step>, t: Time, k: nat)
    requires IsTrace(states, steps) && AllBefore(steps, t) && AllProper(steps) && Steady(states[0], t) && k < |steps|
    ensures SilentlyDisagrees(states[k + 1]) <==>
            Strays(states[k], steps[k]) || (SilentlyDisagrees(states[k]) && !Settles(states[k], steps[k]))
  {
    TraceStaysSteady(states, steps, t, k);
    AgreementBrokenBy(states[k], steps[k], states[k + 1], t);
  }

  lemma AgreementBrokenBy(p: Pool, step: Step, q: Pool, t: Time)
    requires q == Apply(p, step) && Steady(p, t) && 0 < step.now <= t && Proper(step)
    ensures SilentlyDisagrees(q) <==> Strays(p, step) || (SilentlyDisagrees(p) && !Settles(p, step))
  {
    AgreementBrokenExactly(p, step, t);
  }

  // ---------------------------------------------------------------- what is handed out meanwhile

  /** The pool hands out an account that is not recorded on disk as current. */
  predicate HandsOutUnsaved(q: Pool, r: PickResult) {
    r.Handled? && !(q.store.Attached? && OnDisk(q.store.contents).current == q.mem.current)
  }

  /** The account that a pick considers, if it is eligible: the current one, or its successor. */
  function Considered(p: Pool, now: Time): Option<nat> {
    if CurrentIsDead(p, now) then Successor(p, now)
    else if BlockedHash(p.mem, p.cfg.accounts, p.mem.current, now) == Eligible then Some(IndexOf(p.cfg.accounts, p.mem.current))
    else None
  }

  /** The host lists the account, and it is not the one on disk. */
  predicate ListedUnsaved(p: Pool, req: Request, i: nat) {
    && i < |p.cfg.accounts| && Listed(req, p.cfg.accounts[i].authID)
    && !(p.store.Attached? && OnDisk(p.store.contents).current == p.cfg.accounts[i].fingerprint)
  }

  lemma PickCurrentUnsavedExactly(p: Pool, req: Request, t: Time, now: Time)
    requires Consistent(p, t) && p.mem.current != ""
    ensures var (q, r) := PickCurrent(p, req, now);
            HandsOutUnsaved(q, r) <==> Considered(p, now).Some? && ListedUnsaved(p, req, Considered(p, now).value)
  {
    IndexOfIsFirst(p.cfg.accounts, p.mem.current);
    if CurrentIsDead(p, now) && Successor(p, now).Some? {
      SuccessorIsOffered(p, req, t, now);
    }
  }

  lemma SuccessorIsOffered(p: Pool, req: Request, t: Time, now: Time)
    requires Consistent(p, t) && CurrentIsDead(p, now) && Successor(p, now).Some?
    ensures var (q, r) := PickCurrent(p, req, now);
            var a := p.cfg.accounts[Successor(p, now).value];
            q.mem.current == a.fingerprint && q.store == p.store && r == Offer(a, req)
  {
    var i := Successor(p, now).value;
    assert IsEligible(p.mem, p.cfg.accounts, i, now);
    IndexOfUnique(p.cfg.accounts, i);
  }

  /** Exactly when `Pick` hands out an account that is not recorded on disk as current, in every state that
      any run reaches: it reads a current account, and that account, or its successor in a failover, is
      eligible, listed, and not the one on disk. */
  lemma UnsavedHandOutExactly(p: Pool, req: Request, t: Time, now: Time, f: SaveFault)
    requires Consistent(p, t)
    ensures var (q, r) := Pick(p, req, now, f);
            HandsOutUnsaved(q, r) <==>
            && ReadsCurrent(p, PickStep(req, now, f))
            && Considered(p, now).Some? && ListedUnsaved(p, req, Considered(p, now).value)
  {
    if Managed(p, req) && !p.closed && p.fault == NoFault {
      if p.mem.current != "" {
        PickCurrentUnsavedExactly(p, req, t, now);
      } else if Acquire(p, now, f).1.None? {
        AcquiredStays(p, req, t, now, f);
      }
    }
  }

  /** A hand-out is unsaved exactly when disk and memory silently disagree after it. */
  lemma UnsavedHandOutIsDisagreement(p: Pool, req: Request, t: Time, now: Time, f: SaveFault)
    requires Steady(p, t) && 0 < now <= t
    ensures var (q, r) := Pick(p, req, now, f);
            HandsOutUnsaved(q, r) <==> r.Handled? && SilentlyDisagrees(q)
  {
    var (q, r) := Pick(p, req, now, f);
    StepStaysSteady(p, PickStep(req, now, f), t);
    DisagreementIsCurrent(q, t);
    if r.Handled? {
      HandedOutStays(p, req, now, f, t);
    }
  }

  /** Whatever is handed out is current, and no fault is set. */
  lemma HandedOutStays(p: Pool, req: Request, now: Time, f: SaveFault, t: Time)
    requires Consistent(p, t) && Pick(p, req, now, f).1.Handled?
    ensures var q := Pick(p, req, now, f).0; q.mem.current != "" && q.fault == NoFault && q.store.Attached?
  {
    if p.mem.current == "" {
      HashNotEmpty(p.cfg.accounts, Next(p.mem, p.cfg.accounts, p.mem.cursor, now).value);
      AcquiredStays(p, req, t, now, f);
    }
  }

  // ---------------------------------------------------------------- the failing input

  /** An auth failure of `id`, requested and observed at `now`. */
  function AuthFailure(id: string, now: Time): Step {
    ObserveStep(Usage(id, false, now, 0, true, Response(401, NoText, map[])),
                Classification(Auth, 0, NoSource, NoFallback), now, Flawless)
  }

  /** An open pool of two enabled accounts, of which the first is suspended until `until`. */
  predicate OneSuspended(p: Pool, until: Time) {
    && |p.cfg.accounts| >= 2 && !p.cfg.accounts[0].disabled && !p.cfg.accounts[1].disabled
    && p.fault == NoFault && !p.closed && p.store.Attached?
    && SuspendedOnly(KeyOf(p.mem, p.cfg.accounts[0].fingerprint), until)
    && KeyOf(p.mem, p.cfg.accounts[1].fingerprint) == FreshKey
  }

  predicate SuspendedOnly(k: KeyRecord, until: Time) {
    k.suspendedUntil == until && k.exhaustedUntil == k.rateLimitedUntil == k.transientUntil == 0
  }

  lemma FreshlyOpened(cfg: Configuration, i: nat)
    requires GoodConfiguration(cfg) && i < |cfg.accounts| && cfg.accounts[i].authID != ""
    ensures var p, a := Opened(cfg, EmptyState, Missing), cfg.accounts[i];
            && p == Pool(cfg, p.mem, p.byAuthID, Attached(Missing), NoFault, false)
            && p.mem.current == p.mem.cursor == "" && KeyOf(p.mem, a.fingerprint) == FreshKey
            && a.fingerprint in p.mem.keys && a.authID in p.byAuthID && p.byAuthID[a.authID] == a.fingerprint
  {
    OpenedIsGood(cfg, Missing, true, 1);
    FingerprintAt(cfg.accounts, i);
    OpenedRecord(cfg, Missing, true, cfg.accounts[i].fingerprint);
  }

  lemma FirstIsSuspended(cfg: Configuration, now: Time)
    requires GoodConfiguration(cfg) && |cfg.accounts| >= 2 && !cfg.accounts[0].disabled && !cfg.accounts[1].disabled
    requires now > 0
    ensures var q := Apply(Opened(cfg, EmptyState, Missing), AuthFailure(cfg.accounts[0].authID, now));
            q.cfg == cfg && q.mem.current == q.mem.cursor == "" && OneSuspended(q, now + cfg.authSuspension)
  {
    var p, step := Opened(cfg, EmptyState, Missing), AuthFailure(cfg.accounts[0].authID, now);
    FreshlyOpened(cfg, 0);
    FreshlyOpened(cfg, 1);
    HashNotEmpty(cfg.accounts, 0);
    KeyFrame(p, step, cfg.accounts[0].fingerprint);
    KeyFrame(p, step, cfg.accounts[1].fingerprint);
  }

  lemma SuspendedIsSelected(p: Pool, req: Request, now: Time)
    requires Invariant(p, now) && OneSuspended(p, now) && p.mem.current == p.mem.cursor == "" && now > 0
    requires Managed(p, req)
    ensures var q := Pick(p, req, now, Flawless).0;
            q == p.(mem := q.mem, store := Attached(Written(q.mem))) && OneSuspended(q, now)
            && q.mem.current == p.cfg.accounts[0].fingerprint
  {
    IndexOfIsFirst(p.cfg.accounts, "");
    assert forall h :: h in Fingerprints(p.cfg.accounts) ==> IsHash(h);
    assert Search(p.mem, p.cfg.accounts, 0, 0, now) == Some(Around(0, 0, |p.cfg.accounts|));
    AcquiredStays(p, req, now, now, Flawless);
  }

  lemma SelectedIsLeft(p: Pool, req: Request, until: Time, now: Time)
    requires Invariant(p, until) && OneSuspended(p, until) && 0 < now < until && Managed(p, req)
    requires p.mem.current == p.cfg.accounts[0].fingerprint && Listed(req, p.cfg.accounts[1].authID)
    ensures var (q, r) := Pick(p, req, now, Flawless);
            r == Handled(p.cfg.accounts[1].authID) && q.fault == NoFault && HandsOutUnsaved(q, r)
  {
    IndexOfUnique(p.cfg.accounts, 0);
    IndexOfUnique(p.cfg.accounts, 1);
    HashNotEmpty(p.cfg.accounts, 0);
    assert Search(p.mem, p.cfg.accounts, 1, 0, now) == Some(Around(1, 0, |p.cfg.accounts|));
    UnsavedHandOutExactly(p, req, until, now, Flawless);
  }

  /** On a fresh pool with two enabled accounts: the first fails its authentication and is selected again
      when its suspension is over. */
  lemma SelectedAgain(cfg: Configuration, now: Time, req: Request)
    requires GoodConfiguration(cfg) && |cfg.accounts| >= 2 && !cfg.accounts[0].disabled && !cfg.accounts[1].disabled
    requires now > 0 && Listed(req, cfg.accounts[0].authID)
    ensures var first, second := AuthFailure(cfg.accounts[0].authID, now), PickStep(req, now + cfg.authSuspension, Flawless);
            var q := Apply(Apply(Opened(cfg, EmptyState, Missing), first), second);
            && Proper(first) && Invariant(q, second.now) && OneSuspended(q, second.now) && q.cfg == cfg
            && q.mem.current == cfg.accounts[0].fingerprint
  {
    var p := Opened(cfg, EmptyState, Missing);
    var first, second := AuthFailure(cfg.accounts[0].authID, now), PickStep(req, now + cfg.authSuspension, Flawless);
    OpenedIsGood(cfg, Missing, true, now);
    StepKeeps(p, first, now);
    FirstIsSuspended(cfg, now);
    var p1 := Apply(p, first);
    ListedIsManaged(p1, req, 0);
    InvariantLater(p1, now, second.now);
    SuspendedIsSelected(p1, req, second.now);
    StepKeeps(p1, second, now);
  }

  /** Then the clock goes back behind the suspension. The pick after that hands out the second account, with the first one on disk and no fault. */
  lemma ClockGoingBackHandsOutUnsaved(cfg: Configuration, now: Time, req: Request)
    requires GoodConfiguration(cfg) && |cfg.accounts| >= 2 && !cfg.accounts[0].disabled && !cfg.accounts[1].disabled
    requires now > 0 && Listed(req, cfg.accounts[0].authID) && Listed(req, cfg.accounts[1].authID)
    ensures var p := Opened(cfg, EmptyState, Missing);
            var first, second := AuthFailure(cfg.accounts[0].authID, now), PickStep(req, now + cfg.authSuspension, Flawless);
            var (q, r) := Pick(Apply(Apply(p, first), second), req, now, Flawless);
            && Proper(first) && r == Handled(cfg.accounts[1].authID)
            && q.fault == NoFault && HandsOutUnsaved(q, r)
  {
    var second := PickStep(req, now + cfg.authSuspension, Flawless);
    var q := Apply(Apply(Opened(cfg, EmptyState, Missing), AuthFailure(cfg.accounts[0].authID, now)), second);
    SelectedAgain(cfg, now, req);
    ListedIsManaged(q, req, 0);
    SelectedIsLeft(q, req, second.now, now);
  }

  /** The usual order of the host: the guard runs ahead of the pick. */
  lemma GuardedIsLeft(p: Pool, model: string, req: Request, until: Time, now: Time)
    requires Invariant(p, until) && OneSuspended(p, until) && 0 < now < until && model in p.cfg.models
    requires p.mem.current == p.cfg.accounts[0].fingerprint && Listed(req, p.cfg.accounts[1].authID)
    ensures var g := Guard(p, model, true, now).0;
            var (q, r) := Pick(g, req, now, Flawless);
            && r == Handled(p.cfg.accounts[1].authID) && q.fault == NoFault && HandsOutUnsaved(q, r)
            && !FailsOver(g, PickStep(req, now, Flawless))
  {
    var step := GuardStep(model, true, now);
    var g := Guard(p, model, true, now).0;
    IndexOfUnique(p.cfg.accounts, 0);
    IndexOfUnique(p.cfg.accounts, 1);
    HashNotEmpty(p.cfg.accounts, 0);
    HashNotEmpty(p.cfg.accounts, 1);
    assert Search(p.mem, p.cfg.accounts, 1, 0, now) == Some(Around(1, 0, |p.cfg.accounts|));
    FailoverOnlySelects(p, step);
    StepStaysSteady(p, step, until);
    ListedIsManaged(g, req, 1);
    UnsavedHandOutExactly(g, req, until, now, Flawless);
  }

  /** The same run, with a guard ahead of the last pick: the guard fails over, and the pick hands out the
      second account without failing over itself. */
  lemma GuardThenPickHandsOutUnsaved(cfg: Configuration, now: Time, model: string, req: Request)
    requires GoodConfiguration(cfg) && |cfg.accounts| >= 2 && !cfg.accounts[0].disabled && !cfg.accounts[1].disabled
    requires now > 0 && Listed(req, cfg.accounts[0].authID) && Listed(req, cfg.accounts[1].authID) && model in cfg.models
    ensures var p := Opened(cfg, EmptyState, Missing);
            var first, second := AuthFailure(cfg.accounts[0].authID, now), PickStep(req, now + cfg.authSuspension, Flawless);
            var g := Guard(Apply(Apply(p, first), second), model, true, now).0;
            var (q, r) := Pick(g, req, now, Flawless);
            && r == Handled(cfg.accounts[1].authID) && q.fault == NoFault && HandsOutUnsaved(q, r)
            && !FailsOver(g, PickStep(req, now, Flawless))
  {
    var second := PickStep(req, now + cfg.authSuspension, Flawless);
    SelectedAgain(cfg, now, req);
    GuardedIsLeft(Apply(Apply(Opened(cfg, EmptyState, Missing), AuthFailure(cfg.accounts[0].authID, now)), second),
                  model, req, second.now, now);
  }
}

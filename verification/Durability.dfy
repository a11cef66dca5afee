/** Crash safety: what the disk holds while the pool serves traffic, and what a reload finds. */
module Durability {
  import opened Basics
  import opened Failures
  import opened Accounts
  import opened Durable
  import opened Scheduler
  import opened Invariants
  import opened Blocks

  /** What a pick hands out is the current account, and that is eligible. */
  lemma HandedOutIsCurrent(p: Pool, req: Request, now: Time, f: SaveFault)
    requires Invariant(p, now) && Pick(p, req, now, f).1.Handled?
    ensures var (q, r) := Pick(p, req, now, f);
            && q.mem.current != "" && q.fault == NoFault
            && exists i :: 0 <= i < |q.cfg.accounts|
                           && q.cfg.accounts[i].fingerprint == q.mem.current && q.cfg.accounts[i].authID == r.authID
                           && IsEligible(q.mem, q.cfg.accounts, i, now)
  {
    AcquireKeeps(p, now, f);
    var q := Acquire(p, now, f).0;
    PickCurrentChangesNothing(q, req, now, now);
    IndexOfIsFirst(q.cfg.accounts, q.mem.current);
    var i := IndexOf(q.cfg.accounts, q.mem.current);
    assert IsEligible(q.mem, q.cfg.accounts, i, now);
  }

  /** Every account that `Pick` hands out is eligible and is already recorded on disk as current,
      after any run with any mix of failed saves. */
  lemma HandedOutIsOnDisk(p: Pool, steps: seq<Step>, t: Time, req: Request, now: Time, f: SaveFault)
    requires Invariant(p, t) && Timed(steps, t) && AllProper(steps) && EndTime(steps, t) <= now
    requires Pick(Run(p, steps), req, now, f).1.Handled?
    ensures var (q, r) := Pick(Run(p, steps), req, now, f);
            && q.store.Attached? && q.mem.current != ""
            && OnDisk(q.store.contents).current == q.mem.current
            && exists i :: 0 <= i < |q.cfg.accounts|
                           && q.cfg.accounts[i].fingerprint == q.mem.current && q.cfg.accounts[i].authID == r.authID
                           && IsEligible(q.mem, q.cfg.accounts, i, now)
  {
    RunKeeps(p, steps, t);
    var p1 := Run(p, steps);
    InvariantLater(p1, EndTime(steps, t), now);
    PickKeeps(p1, req, now, f);
    HandedOutIsCurrent(p1, req, now, f);
  }

  /** A state that satisfies the invariant is valid when it is read back, exactly when it does not
      hold too many keys. */
  lemma DecodableExactly(s: Persisted, t: Time)
    requires GoodState(s, t)
    ensures Decodable(s) <==> |s.keys| <= KEY_LIMIT
  {
  }

  /** What a reload of an open pool's file finds, with the same configuration. */
  ghost predicate ReloadsAs(p: Pool, r: Pool) {
    && (p.mem.current != "" ==> r.mem.current == p.mem.current)
    && (forall h :: h in Fingerprints(p.cfg.accounts) ==> KeyOf(r.mem, h) == KeyOf(p.mem, h))
    && (forall i, now :: 0 <= i < |p.cfg.accounts| ==>
                           Blocked(r.mem, p.cfg.accounts[i], now) == Blocked(p.mem, p.cfg.accounts[i], now))
  }

  lemma SameVerdicts(p: Pool, r: Pool)
    requires forall h :: h in Fingerprints(p.cfg.accounts) ==> KeyOf(r.mem, h) == KeyOf(p.mem, h)
    ensures forall i, now :: 0 <= i < |p.cfg.accounts| ==>
                               Blocked(r.mem, p.cfg.accounts[i], now) == Blocked(p.mem, p.cfg.accounts[i], now)
  {
    forall i, now | 0 <= i < |p.cfg.accounts|
      ensures Blocked(r.mem, p.cfg.accounts[i], now) == Blocked(p.mem, p.cfg.accounts[i], now)
    {
      FingerprintAt(p.cfg.accounts, i);
    }
  }

  lemma OpenPoolReloads(p: Pool, t: Time)
    requires Invariant(p, t) && p.fault == NoFault && Load(p.store.contents, true).Some?
    ensures ReloadsAs(p, Opened(p.cfg, Load(p.store.contents, true).value, p.store.contents))
  {
    var c := p.store.contents;
    var r := Opened(p.cfg, Load(c, true).value, c);
    IndexOfIsFirst(p.cfg.accounts, OnDisk(c).current);
    forall h | h in Fingerprints(p.cfg.accounts)
      ensures KeyOf(r.mem, h) == KeyOf(p.mem, h)
    {
      OpenedRecord(p.cfg, c, true, h);
    }
    SameVerdicts(p, r);
  }

  /** A crash at any point of a run at which the pool is open to traffic loses nothing that matters.
      The reload succeeds exactly when there is no file, or it can be read (which needs at most 8 MiB) and
      holds at most 10000 keys; it finds the record of every configured key, hence the same verdicts at
      every time, and the same current account. */
  lemma ReloadAfterCrash(p: Pool, steps: seq<Step>, t: Time, readable: bool)
    requires Invariant(p, t) && Timed(steps, t) && AllProper(steps)
    requires Run(p, steps).fault == NoFault
    ensures var q := Run(p, steps);
            && q.store.Attached?
            && (Load(q.store.contents, readable).Some? <==>
                  q.store.contents.Missing? || (readable && |OnDisk(q.store.contents).keys| <= KEY_LIMIT))
            && (Load(q.store.contents, readable).Some? ==>
                  var r := Opened(q.cfg, Load(q.store.contents, readable).value, q.store.contents);
                  Invariant(r, EndTime(steps, t)) && ReloadsAs(q, r))
  {
    RunKeeps(p, steps, t);
    var q := Run(p, steps);
    var c := q.store.contents;
    if c.Written? {
      DecodableExactly(c.state, EndTime(steps, t));
    }
    if Load(c, true).Some? {
      OpenedIsGood(q.cfg, c, true, EndTime(steps, t));
      OpenPoolReloads(q, EndTime(steps, t));
    }
  }

  // ---------------------------------------------------------------- how many keys there can be

  /** The keys a step brings into the configuration. */
  ghost function Introduced(step: Step): set<string> {
    if step.ReconfigureStep? then Fingerprints(step.cfg.accounts) else {}
  }

  ghost function EverConfigured(steps: seq<Step>): set<string> {
    if steps == [] then {} else Introduced(steps[0]) + EverConfigured(steps[1..])
  }

  /** The keys in memory and on disk. */
  ghost function KnownKeys(p: Pool): set<string> {
    p.mem.keys.Keys + (if p.store.Attached? then OnDisk(p.store.contents).keys.Keys else {})
  }

  lemma SaveKnows(p: Pool, f: SaveFault)
    ensures KnownKeys(Save(p, f).0) <= KnownKeys(p)
  {
  }

  lemma AcquireKnows(p: Pool, now: Time, f: SaveFault)
    ensures KnownKeys(Acquire(p, now, f).0) <= KnownKeys(p)
  {
  }

  lemma ObserveKnows(p: Pool, rec: Usage, c: Classification, now: Time, f: SaveFault)
    ensures KnownKeys(Observe(p, rec, c, now, f).0) <= KnownKeys(p)
  {
  }

  lemma AbsorbSameKeys(mem: Persisted, cfg: Configuration, hash: string, rec: Usage, c: Classification, now: Time)
    requires hash in mem.keys
    ensures Absorb(mem, cfg, hash, rec, c, now).keys == mem.keys[hash := Credit(mem.keys[hash], cfg, rec, c, now)]
    ensures Absorb(mem, cfg, hash, rec, c, now).keys.Keys == mem.keys.Keys
  {
  }

  lemma ReconfigureKnows(p: Pool, cfg: Configuration, now: Time, f: SaveFault)
    ensures KnownKeys(Reconfigure(p, cfg, now, f).0) <= KnownKeys(p) + Fingerprints(cfg.accounts)
  {
    WithKeysValue(p.mem.keys, cfg.accounts);
    var q := Install(p, cfg).(fault := NoFault);
    ChooseKeys(q.mem.(current := ""), cfg.accounts, q.mem.cursor, now);
    SaveKnows(Rehoused(q, now), f);
  }

  lemma StepKnows(p: Pool, step: Step, t: Time)
    requires Invariant(p, t) && t <= step.now && Proper(step)
    ensures KnownKeys(Apply(p, step)) <= KnownKeys(p) + Introduced(step)
  {
    match step
    case PickStep(req, now, f) =>
      InvariantLater(p, t, now);
      PickKeeps(p, req, now, f);
      AcquireKnows(p, now, f);
    case ObserveStep(rec, c, now, f) => ObserveKnows(p, rec, c, now, f);
    case GuardStep(model, forwarded, now) => GuardChangesNothing(p, model, forwarded, t, now);
    case ResumeStep(name, confirm, now, f) =>
      if Resumes(p, name, confirm) {
        var i := LabelIndex(p.cfg.accounts, name);
        FingerprintAt(p.cfg.accounts, i);
        SaveKnows(Forgiven(p, p.cfg.accounts[i].fingerprint, now), f);
      }
    case ReconfigureStep(cfg, now, f) => ReconfigureKnows(p, cfg, now, f);
    case CloseStep(now, f) => SaveKnows(p.(closed := true), f);
    case FaultStep(fault, now) =>
  }

  lemma {:induction false} RunKnows(p: Pool, steps: seq<Step>, t: Time)
    requires Invariant(p, t) && Timed(steps, t) && AllProper(steps)
    ensures KnownKeys(Run(p, steps)) <= KnownKeys(p) + EverConfigured(steps)
    decreases |steps|
  {
    if steps != [] {
      StepKeeps(p, steps[0], t);
      StepKnows(p, steps[0], t);
      RunKnows(Apply(p, steps[0]), steps[1..], steps[0].now);
    }
  }

  lemma CardinalityMonotone<T>(a: set<T>, b: set<T>)
    requires a <= b
    ensures |a| <= |b|
  {
    if a != {} {
      var x :| x in a;
      CardinalityMonotone(a - {x}, b - {x});
    }
  }

  /** With at most 10000 keys ever configured, every run of a pool can be reloaded after a crash, exactly
      if its file is missing or can be read. */
  lemma FewKeysReload(p: Pool, steps: seq<Step>, t: Time, readable: bool)
    requires Invariant(p, t) && Timed(steps, t) && AllProper(steps)
    requires Run(p, steps).fault == NoFault
    requires |KnownKeys(p) + EverConfigured(steps)| <= KEY_LIMIT
    ensures var q := Run(p, steps);
            q.store.Attached? && (Load(q.store.contents, readable).Some? <==> q.store.contents.Missing? || readable)
  {
    RunKnows(p, steps, t);
    ReloadAfterCrash(p, steps, t, readable);
    var disk := OnDisk(Run(p, steps).store.contents);
    CardinalityMonotone(disk.keys.Keys, KnownKeys(p) + EverConfigured(steps));
    assert |disk.keys| == |disk.keys.Keys|;
  }

  // ---------------------------------------------------------------- faults

  /** The step reaches the save of an attached store while a fault is set. */
  predicate SavesUnderFault(p: Pool, step: Step) {
    && p.store.Attached?
    && match step
       case ObserveStep(rec, _, _, _) => Accepted(p, rec)
       case ResumeStep(name, confirm, _, _) => Resumes(p, name, confirm)
       case ReconfigureStep(cfg, _, _) => cfg.stateDir == p.cfg.stateDir
       case CloseStep(_, _) => !p.closed
       case _ => false
  }

  /** Exactly when a fault is lifted: by a flawless save, and then only for a write fault or in a
      reconfiguration. */
  lemma FaultLiftedExactly(p: Pool, step: Step, t: Time)
    requires Invariant(p, t) && t <= step.now && Proper(step) && p.fault != NoFault
    ensures Apply(p, step).fault == NoFault <==>
            SavesUnderFault(p, step) && step.save == Flawless && (p.fault == StateWriteFailed || step.ReconfigureStep?)
  {
  }

  /** A configuration fault is not sticky: a save that fails replaces it by a write fault, and the
      next flawless save lifts that, with no reconfiguration in between. */
  lemma WriteFaultErasesOtherFault(p: Pool, rec: Usage, c1: Classification, c2: Classification, t: Time, t1: Time, t2: Time)
    requires Invariant(p, t) && t <= t1 <= t2 && Accepted(p, rec)
    requires p.fault == ConfigurationError
    requires WithinBounds(c1, ObservedAt(rec, t1)) && WithinBounds(c2, ObservedAt(rec, t2))
    ensures var steps := [ObserveStep(rec, c1, t1, WriteTemp), ObserveStep(rec, c2, t2, Flawless)];
            Run(p, steps).fault == NoFault
  {
    var first, second := ObserveStep(rec, c1, t1, WriteTemp), ObserveStep(rec, c2, t2, Flawless);
    var q := Apply(p, first);
    StepKeeps(p, first, t);
    AbsorbSameKeys(p.mem, p.cfg, p.byAuthID[rec.authID], rec, c1, t1);
    assert Accepted(q, rec);
    FaultLiftedExactly(q, second, t1);
    assert [first, second][1..] == [second] && [second][1..] == [];
    assert Run(q, [second]) == Apply(q, second);
  }
}

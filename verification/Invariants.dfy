/** What every step of the scheduler keeps, and with it: the current account is never a dead one,
    and memory and disk never disagree while the pool is open to traffic. */
module Invariants {
  import opened Basics
  import opened Failures
  import opened Accounts
  import opened Durable
  import opened Scheduler

  // ---------------------------------------------------------------- the invariant

  /** No block that makes the scheduler leave a key is running at `t`. */
  predicate Settled(k: KeyRecord, t: Time) {
    k.exhaustedUntil <= t && k.suspendedUntil <= t && k.transientUntil <= t
  }

  /** No block of the key lasts beyond `b`. */
  predicate OverBy(k: KeyRecord, b: Time) {
    k.exhaustedUntil <= b && k.suspendedUntil <= b && k.rateLimitedUntil <= b && k.transientUntil <= b
  }

  ghost predicate BoundedKeys(keys: map<string, KeyRecord>, b: Time) {
    forall h :: h in keys ==> OverBy(keys[h], b)
  }

  predicate HashOrNone(s: string) {
    s == "" || IsHash(s)
  }

  /** What holds of every state that is ever in memory or on disk, apart from the accounts. */
  ghost predicate GoodState(s: Persisted, t: Time) {
    && s.version == 1 && HashOrNone(s.current) && HashOrNone(s.cursor)
    && (forall h :: h in s.keys ==> IsHash(h)) && BoundedKeys(s.keys, t + LONGEST)
    && (s.current != "" ==> s.current in s.keys && Settled(s.keys[s.current], t))
  }

  ghost predicate GoodContents(c: Contents, t: Time) {
    c.Written? ==> GoodState(c.state, t)
  }

  ghost predicate GoodIndex(index: map<string, string>, accounts: seq<Account>) {
    && (forall id :: id in index ==> index[id] in Fingerprints(accounts))
    && (forall i :: 0 <= i < |accounts| && accounts[i].authID != "" ==>
                      accounts[i].authID in index && index[accounts[i].authID] == accounts[i].fingerprint)
  }

  /** The state a contents stands for; a missing file stands for the empty state. */
  function OnDisk(c: Contents): Persisted {
    if c.Written? then c.state else EmptyState
  }

  /** Disk and memory agree on every configured key, and on the current account if there is one. */
  ghost predicate Agrees(c: Contents, mem: Persisted, accounts: seq<Account>) {
    && !c.Garbage?
    && (forall h :: h in Fingerprints(accounts) ==> KeyOf(OnDisk(c), h) == KeyOf(mem, h))
    && (mem.current != "" ==> OnDisk(c).current == mem.current)
  }

  /** The invariant without the agreement of disk and memory, which a save restores. */
  ghost predicate Consistent(p: Pool, t: Time) {
    && t > 0
    && GoodConfiguration(p.cfg)
    && GoodState(p.mem, t)
    && Fingerprints(p.cfg.accounts) <= p.mem.keys.Keys
    && (p.mem.current != "" ==> p.mem.current in Fingerprints(p.cfg.accounts))
    && GoodIndex(p.byAuthID, p.cfg.accounts)
    && (p.store.NoStore? ==> p.fault != NoFault)
    && (p.store.Attached? ==> GoodContents(p.store.contents, t))
  }

  ghost predicate Invariant(p: Pool, t: Time) {
    && Consistent(p, t)
    && (p.fault == NoFault ==> Agrees(p.store.contents, p.mem, p.cfg.accounts))
  }

  // ---------------------------------------------------------------- parts of a step

  lemma InvariantLater(p: Pool, t: Time, t': Time)
    requires Invariant(p, t) && t <= t'
    ensures Invariant(p, t')
  {
  }

  lemma FingerprintAt(accounts: seq<Account>, i: nat)
    requires i < |accounts|
    ensures accounts[i].fingerprint in Fingerprints(accounts)
  {
  }

  /** A selection changes no record. */
  lemma ChooseKeys(mem: Persisted, accounts: seq<Account>, after: string, now: Time)
    ensures Choose(mem, accounts, after, now).keys == mem.keys
  {
  }

  /** Whatever was current before, a selection makes nothing current that is blocked. */
  lemma ChooseIsGood(mem: Persisted, accounts: seq<Account>, after: string, now: Time, t: Time)
    requires GoodAccounts(accounts) && accounts != [] && now <= t
    requires GoodState(mem.(current := ""), t)
    requires Fingerprints(accounts) <= mem.keys.Keys
    ensures var m := Choose(mem, accounts, after, now);
            && GoodState(m, t) && m.keys == mem.keys
            && (m.current != "" ==> m.current in Fingerprints(accounts))
  {
  }

  /** A save restores the agreement, or leaves a fault. */
  lemma SaveRestores(p: Pool, f: SaveFault, t: Time)
    requires Consistent(p, t)
    ensures Invariant(Save(p, f).0, t)
    ensures p.store.Attached? && f == Flawless ==> Save(p, f).0.store == Attached(Written(p.mem))
  {
  }

  /** A settled current account has one of three verdicts. */
  lemma SettledVerdict(p: Pool, t: Time, now: Time)
    requires Consistent(p, t) && t <= now && p.mem.current != ""
    ensures BlockedHash(p.mem, p.cfg.accounts, p.mem.current, now) in {Eligible, RateLimited, Disabled}
    ensures BlockedHash(p.mem, p.cfg.accounts, p.mem.current, now) == Disabled <==> Stranded(p)
  {
    IndexOfIsFirst(p.cfg.accounts, p.mem.current);
  }

  lemma NoneNextChangesNothing(p: Pool, now: Time)
    requires p.mem.current == "" && Next(p.mem, p.cfg.accounts, p.mem.cursor, now).None?
    ensures Choose(p.mem, p.cfg.accounts, p.mem.cursor, now) == p.mem
  {
  }

  // ---------------------------------------------------------------- each public method

  lemma AcquireKeeps(p: Pool, now: Time, f: SaveFault)
    requires Invariant(p, now)
    ensures Invariant(Acquire(p, now, f).0, now)
    ensures Acquire(p, now, f).1.None? ==> Acquire(p, now, f).0.mem.current != ""
    ensures p.fault == NoFault && Acquire(p, now, f).1.None? ==> Acquire(p, now, f).0.fault == NoFault
  {
    if p.mem.current == "" {
      var q := p.(mem := Choose(p.mem, p.cfg.accounts, p.mem.cursor, now));
      if Next(p.mem, p.cfg.accounts, p.mem.cursor, now).Some? {
        ChooseIsGood(p.mem, p.cfg.accounts, p.mem.cursor, now, now);
        SaveRestores(q, f, now);
        HashNotEmpty(p.cfg.accounts, Next(p.mem, p.cfg.accounts, p.mem.cursor, now).value);
      } else {
        NoneNextChangesNothing(p, now);
      }
    }
  }

  lemma HashNotEmpty(accounts: seq<Account>, i: nat)
    requires GoodAccounts(accounts) && i < |accounts|
    ensures accounts[i].fingerprint != ""
  {
  }

  /** The in-line failover of `Pick` is never entered: what is current is never suspended or in
      quarantine. */
  lemma PickCurrentChangesNothing(p: Pool, req: Request, t: Time, now: Time)
    requires Consistent(p, t) && t <= now && p.mem.current != ""
    ensures PickCurrent(p, req, now) ==
            (p, Settle(p, BlockedHash(p.mem, p.cfg.accounts, p.mem.current, now), req))
  {
    SettledVerdict(p, t, now);
  }

  /** All that a pick ever changes is what the selection of a missing current account changes. */
  lemma PickKeeps(p: Pool, req: Request, now: Time, f: SaveFault)
    requires Invariant(p, now)
    ensures Invariant(Pick(p, req, now, f).0, now)
    ensures Pick(p, req, now, f).0 == p || Pick(p, req, now, f).0 == Acquire(p, now, f).0
    ensures p.mem.current != "" ==> Pick(p, req, now, f).0 == p
  {
    AcquireKeeps(p, now, f);
    var (q, refusal) := Acquire(p, now, f);
    if refusal.None? {
      PickCurrentChangesNothing(q, req, now, now);
    }
  }

  /** The in-line failover of `Guard` is never entered either: `Guard` only reads. */
  lemma GuardChangesNothing(p: Pool, model: string, forwarded: bool, t: Time, now: Time)
    requires Consistent(p, t) && t <= now
    ensures Guard(p, model, forwarded, now).0 == p
  {
    if p.mem.current != "" {
      SettledVerdict(p, t, now);
    }
  }

  /** What a failure adds to the blocks of its key is over 366 days after it is observed. */
  lemma CreditIsBounded(k: KeyRecord, cfg: Configuration, rec: Usage, c: Classification, now: Time, b: Time)
    requires OverBy(k, b) && 0 <= b && now + LONGEST <= b
    requires GoodConfiguration(cfg) && WithinBounds(c, ObservedAt(rec, now))
    ensures OverBy(Credit(k, cfg, rec, c, now), b)
  {
  }

  lemma AbsorbIsGood(mem: Persisted, cfg: Configuration, hash: string, rec: Usage, c: Classification, now: Time, t: Time)
    requires GoodConfiguration(cfg) && GoodState(mem, t) && hash in mem.keys
    requires Fingerprints(cfg.accounts) <= mem.keys.Keys && 0 < now <= t
    requires mem.current != "" ==> mem.current in Fingerprints(cfg.accounts)
    requires WithinBounds(c, ObservedAt(rec, now))
    ensures var m := Absorb(mem, cfg, hash, rec, c, now);
            && GoodState(m, t) && m.keys.Keys == mem.keys.Keys
            && (m.current != "" ==> m.current in Fingerprints(cfg.accounts))
  {
    var m := Credited(mem, cfg, hash, rec, c, now);
    CreditedIsGood(mem, cfg, hash, rec, c, now, t);
    if mem.current == hash && Advances(mem.keys[hash], rec, c, now) {
      FingerprintsEmpty(cfg.accounts, hash);
      ChooseIsGood(m.(cursor := hash), cfg.accounts, hash, now, t);
    }
  }

  /** The memory after the credit: good, if the key that must be left is left. */
  lemma CreditedIsGood(mem: Persisted, cfg: Configuration, hash: string, rec: Usage, c: Classification, now: Time, t: Time)
    requires GoodConfiguration(cfg) && GoodState(mem, t) && hash in mem.keys && 0 < now <= t
    requires WithinBounds(c, ObservedAt(rec, now))
    ensures var m := Credited(mem, cfg, hash, rec, c, now);
            && m.keys.Keys == mem.keys.Keys
            && GoodState(m.(current := ""), t)
            && (!(mem.current == hash && Advances(mem.keys[hash], rec, c, now)) ==> GoodState(m, t))
  {
    CreditIsBounded(mem.keys[hash], cfg, rec, c, now, t + LONGEST);
    if !Advances(mem.keys[hash], rec, c, now) {
      CreditWithoutLeaving(mem.keys[hash], cfg, rec, c, now);
    }
  }

  /** A record that does not make the scheduler leave the key does not touch its three leaving
      blocks. */
  lemma CreditWithoutLeaving(k: KeyRecord, cfg: Configuration, rec: Usage, c: Classification, now: Time)
    requires !Advances(k, rec, c, now)
    ensures var k' := Credit(k, cfg, rec, c, now);
            && k'.exhaustedUntil == k.exhaustedUntil && k'.suspendedUntil == k.suspendedUntil
            && k'.transientUntil == k.transientUntil && k'.ignoreBefore == k.ignoreBefore
  {
  }

  lemma ObserveKeeps(p: Pool, rec: Usage, c: Classification, now: Time, f: SaveFault)
    requires Invariant(p, now) && WithinBounds(c, ObservedAt(rec, now))
    ensures Invariant(Observe(p, rec, c, now, f).0, now)
  {
    if Accepted(p, rec) {
      var hash := p.byAuthID[rec.authID];
      AbsorbIsGood(p.mem, p.cfg, hash, rec, c, now, now);
      SaveRestores(p.(mem := Absorb(p.mem, p.cfg, hash, rec, c, now)), f, now);
    }
  }

  lemma ResumeKeeps(p: Pool, name: string, confirm: string, now: Time, f: SaveFault)
    requires Invariant(p, now)
    ensures Invariant(Resume(p, name, confirm, now, f).0, now)
  {
    if Resumes(p, name, confirm) {
      var i := LabelIndex(p.cfg.accounts, name);
      FingerprintAt(p.cfg.accounts, i);
      var q := Forgiven(p, p.cfg.accounts[i].fingerprint, now);
      assert q.mem.keys.Keys == p.mem.keys.Keys;
      SaveRestores(q, f, now);
    }
  }

  lemma {:induction false} WithKeysValue(keys: map<string, KeyRecord>, accounts: seq<Account>)
    ensures WithKeys(keys, accounts).Keys == keys.Keys + Fingerprints(accounts)
    ensures forall h :: h in WithKeys(keys, accounts) ==> WithKeys(keys, accounts)[h] == if h in keys then keys[h] else FreshKey
  {
    if accounts != [] {
      var n := |accounts| - 1;
      WithKeysValue(keys, accounts[..n]);
      assert accounts == accounts[..n] + [accounts[n]];
      FingerprintsAppend(accounts[..n], accounts[n]);
    }
  }

  lemma {:induction false} EnterMaps(index: map<string, string>, accounts: seq<Account>, i: nat)
    requires i < |accounts| && accounts[i].authID != ""
    requires forall j :: i < j < |accounts| ==> accounts[j].authID != accounts[i].authID
    ensures accounts[i].authID in Enter(index, accounts)
    ensures Enter(index, accounts)[accounts[i].authID] == accounts[i].fingerprint
  {
    var n := |accounts| - 1;
    if i < n {
      EnterMaps(index, accounts[..n], i);
    }
  }

  /** After an install every nonempty auth ID indexes its own account. */
  lemma IndexIsGood(index: map<string, string>, accounts: seq<Account>)
    requires GoodAccounts(accounts)
    ensures GoodIndex(Index(index, accounts), accounts)
  {
    forall i | 0 <= i < |accounts| && accounts[i].authID != ""
      ensures accounts[i].authID in Index(index, accounts) && Index(index, accounts)[accounts[i].authID] == accounts[i].fingerprint
    {
      EnterMaps(index, accounts, i);
      FingerprintAt(accounts, i);
    }
  }

  lemma KeysStayGood(keys: map<string, KeyRecord>, accounts: seq<Account>, b: Time)
    requires GoodAccounts(accounts) && b >= 0
    requires (forall h :: h in keys ==> IsHash(h)) && BoundedKeys(keys, b)
    ensures (forall h :: h in WithKeys(keys, accounts) ==> IsHash(h)) && BoundedKeys(WithKeys(keys, accounts), b)
  {
  }

  /** Installing accounts into a good memory gives every account a record and an index, and changes no
      record. */
  lemma InstallIsGood(p: Pool, cfg: Configuration, t: Time)
    requires GoodConfiguration(cfg) && GoodState(p.mem, t) && t > 0
    ensures var q := Install(p, cfg);
            && GoodState(q.mem, t) && Fingerprints(cfg.accounts) <= q.mem.keys.Keys && GoodIndex(q.byAuthID, cfg.accounts)
            && forall h :: KeyOf(q.mem, h) == KeyOf(p.mem, h)
  {
    WithKeysValue(p.mem.keys, cfg.accounts);
    KeysStayGood(p.mem.keys, cfg.accounts, t + LONGEST);
    IndexIsGood(p.byAuthID, cfg.accounts);
  }

  /** What a reconfiguration leaves in memory, before it is saved. */
  lemma ReconfiguredIsConsistent(p: Pool, cfg: Configuration, now: Time, t: Time)
    requires Consistent(p, t) && now <= t && GoodConfiguration(cfg) && p.store.Attached?
    ensures Consistent(Reconfigured(p, cfg, now), t)
  {
    InstallIsGood(p, cfg, t);
    var q := Install(p, cfg).(fault := NoFault);
    IndexOfIsFirst(cfg.accounts, p.mem.current);
    if Stranded(q) && cfg.accounts != [] {
      ChooseIsGood(q.mem.(current := ""), cfg.accounts, q.mem.cursor, now, t);
    }
  }

  lemma ReconfigureKeeps(p: Pool, cfg: Configuration, now: Time, f: SaveFault)
    requires Invariant(p, now) && GoodConfiguration(cfg)
    ensures Invariant(Reconfigure(p, cfg, now, f).0, now)
  {
    if p.store.Attached? && cfg.stateDir == p.cfg.stateDir {
      ReconfiguredIsConsistent(p, cfg, now, now);
      SaveRestores(Reconfigured(p, cfg, now), f, now);
    }
  }

  lemma CloseKeeps(p: Pool, now: Time, f: SaveFault)
    requires Invariant(p, now)
    ensures Invariant(Close(p, f), now)
  {
  }

  // ---------------------------------------------------------------- every run

  lemma StepKeeps(p: Pool, step: Step, t: Time)
    requires Invariant(p, t) && t <= step.now && Proper(step)
    ensures Invariant(Apply(p, step), step.now)
  {
    InvariantLater(p, t, step.now);
    match step
    case PickStep(req, now, f) => PickKeeps(p, req, now, f);
    case ObserveStep(rec, c, now, f) => ObserveKeeps(p, rec, c, now, f);
    case GuardStep(model, forwarded, now) => GuardChangesNothing(p, model, forwarded, now, now);
    case ResumeStep(name, confirm, now, f) => ResumeKeeps(p, name, confirm, now, f);
    case ReconfigureStep(cfg, now, f) => ReconfigureKeeps(p, cfg, now, f);
    case CloseStep(now, f) => CloseKeeps(p, now, f);
    case FaultStep(fault, now) =>
  }

  ghost predicate AllProper(steps: seq<Step>) {
    forall i :: 0 <= i < |steps| ==> Proper(steps[i])
  }

  lemma {:induction false} RunKeeps(p: Pool, steps: seq<Step>, t: Time)
    requires Invariant(p, t) && Timed(steps, t) && AllProper(steps)
    ensures Invariant(Run(p, steps), EndTime(steps, t))
    ensures t <= EndTime(steps, t)
    decreases |steps|
  {
    if steps != [] {
      StepKeeps(p, steps[0], t);
      RunKeeps(Apply(p, steps[0]), steps[1..], steps[0].now);
    }
  }

  /** A pool that is opened on an empty store, or on one left by an earlier run, starts right: the
      clock must not have gone back across the restart. */
  lemma OpenedIsGood(cfg: Configuration, c: Contents, readable: bool, t: Time)
    requires t > 0 && GoodConfiguration(cfg) && GoodContents(c, t)
    requires Load(c, readable).Some?
    ensures Invariant(Opened(cfg, Load(c, readable).value, c), t)
  {
    var s := Load(c, readable).value;
    InstallIsGood(Pool(cfg, s, map[], Attached(c), NoFault, false), cfg, t);
    IndexOfIsFirst(cfg.accounts, s.current);
  }

  // ---------------------------------------------------------------- main results

  /** In every run with a clock that does not go back, the current account is configured and is
      not exhausted, suspended or in quarantine, now or at any later time: it can only be
      rate-limited, or disabled. Neither in-line failover branch is ever entered. */
  lemma CurrentIsNeverDead(p: Pool, steps: seq<Step>, t: Time, now: Time, req: Request, f: SaveFault, model: string, forwarded: bool)
    requires Invariant(p, t) && Timed(steps, t) && AllProper(steps)
    requires EndTime(steps, t) <= now
    ensures var q := Run(p, steps);
            && (q.mem.current != "" ==>
                  && q.mem.current in Fingerprints(q.cfg.accounts)
                  && BlockedHash(q.mem, q.cfg.accounts, q.mem.current, now) in {Eligible, RateLimited, Disabled}
                  && Pick(q, req, now, f).0 == q)
            && (Pick(q, req, now, f).0 == q || Pick(q, req, now, f).0 == Acquire(q, now, f).0)
            && Guard(q, model, forwarded, now).0 == q
  {
    RunKeeps(p, steps, t);
    var q := Run(p, steps);
    InvariantLater(q, EndTime(steps, t), now);
    PickKeeps(q, req, now, f);
    if q.mem.current != "" {
      SettledVerdict(q, EndTime(steps, t), now);
    }
    GuardChangesNothing(q, model, forwarded, EndTime(steps, t), now);
  }

  // ---------------------------------------------------------------- a disabled current account

  ghost predicate CurrentEnabled(p: Pool) {
    p.mem.current != "" ==> !Stranded(p)
  }

  lemma ChooseIsEnabled(p: Pool, mem: Persisted, after: string, now: Time)
    requires GoodAccounts(p.cfg.accounts)
    requires p.cfg.accounts != []
    ensures CurrentEnabled(p.(mem := Choose(mem, p.cfg.accounts, after, now)))
  {
    var next := Next(mem, p.cfg.accounts, after, now);
    if next.Some? {
      IndexOfUnique(p.cfg.accounts, next.value);
    }
  }

  lemma SaveStaysEnabled(p: Pool, f: SaveFault)
    ensures CurrentEnabled(Save(p, f).0) <==> CurrentEnabled(p)
  {
  }

  lemma AcquireStaysEnabled(p: Pool, now: Time, f: SaveFault)
    requires GoodAccounts(p.cfg.accounts) && CurrentEnabled(p)
    ensures CurrentEnabled(Acquire(p, now, f).0)
  {
    if p.mem.current == "" && p.cfg.accounts != [] {
      ChooseIsEnabled(p, p.mem, p.mem.cursor, now);
      SaveStaysEnabled(p.(mem := Choose(p.mem, p.cfg.accounts, p.mem.cursor, now)), f);
    }
  }

  lemma PickStaysEnabled(p: Pool, req: Request, now: Time, f: SaveFault)
    requires Invariant(p, now) && CurrentEnabled(p)
    ensures CurrentEnabled(Pick(p, req, now, f).0)
  {
    PickKeeps(p, req, now, f);
    AcquireStaysEnabled(p, now, f);
  }

  lemma ObserveStaysEnabled(p: Pool, rec: Usage, c: Classification, now: Time, f: SaveFault)
    requires Invariant(p, now) && CurrentEnabled(p)
    ensures CurrentEnabled(Observe(p, rec, c, now, f).0)
  {
    if Accepted(p, rec) {
      var hash := p.byAuthID[rec.authID];
      var m := p.mem.(keys := p.mem.keys[hash := Credit(p.mem.keys[hash], p.cfg, rec, c, now)]);
      FingerprintsEmpty(p.cfg.accounts, hash);
      ChooseIsEnabled(p, m.(cursor := hash), hash, now);
      SaveStaysEnabled(p.(mem := Absorb(p.mem, p.cfg, hash, rec, c, now)), f);
    }
  }

  lemma FingerprintsEmpty(accounts: seq<Account>, hash: string)
    requires hash in Fingerprints(accounts)
    ensures accounts != []
  {
  }

  /** After a reconfiguration that goes through, whatever was current before, no disabled account
      is current. */
  lemma ReconfigureEnables(p: Pool, cfg: Configuration, now: Time, f: SaveFault)
    requires GoodConfiguration(cfg) && p.store.Attached? && cfg.stateDir == p.cfg.stateDir
    ensures CurrentEnabled(Reconfigure(p, cfg, now, f).0)
  {
    var q := Install(p, cfg).(fault := NoFault);
    if cfg.accounts != [] {
      ChooseIsEnabled(q, q.mem.(current := ""), q.mem.cursor, now);
    }
    SaveStaysEnabled(Rehoused(q, now), f);
  }

  /** Exactly when opening a file gives no disabled current account. */
  lemma OpenedIsEnabledExactly(cfg: Configuration, s: Persisted, c: Contents)
    requires GoodAccounts(cfg.accounts)
    ensures CurrentEnabled(Opened(cfg, s, c)) <==>
            forall i :: 0 <= i < |cfg.accounts| && cfg.accounts[i].fingerprint == s.current ==> !cfg.accounts[i].disabled
  {
    IndexOfIsFirst(cfg.accounts, s.current);
    forall i | 0 <= i < |cfg.accounts|
      ensures cfg.accounts[i].fingerprint != "" && IndexOf(cfg.accounts, cfg.accounts[i].fingerprint) == i
    {
      HashNotEmpty(cfg.accounts, i);
      IndexOfUnique(cfg.accounts, i);
    }
  }

  /** A disabled current account only comes from a restart: once it is enabled or absent it stays
      so through every step. */
  lemma StepStaysEnabled(p: Pool, step: Step, t: Time)
    requires Invariant(p, t) && t <= step.now && Proper(step) && CurrentEnabled(p)
    ensures CurrentEnabled(Apply(p, step))
  {
    InvariantLater(p, t, step.now);
    match step
    case PickStep(req, now, f) => PickStaysEnabled(p, req, now, f);
    case ObserveStep(rec, c, now, f) => ObserveStaysEnabled(p, rec, c, now, f);
    case GuardStep(model, forwarded, now) => GuardChangesNothing(p, model, forwarded, now, now);
    case ResumeStep(name, confirm, now, f) =>
    case ReconfigureStep(cfg, now, f) =>
      if p.store.Attached? && cfg.stateDir == p.cfg.stateDir {
        ReconfigureEnables(p, cfg, now, f);
      }
    case CloseStep(now, f) =>
    case FaultStep(fault, now) =>
  }

  lemma {:induction false} RunStaysEnabled(p: Pool, steps: seq<Step>, t: Time)
    requires Invariant(p, t) && Timed(steps, t) && AllProper(steps) && CurrentEnabled(p)
    ensures CurrentEnabled(Run(p, steps))
    decreases |steps|
  {
    if steps != [] {
      StepKeeps(p, steps[0], t);
      StepStaysEnabled(p, steps[0], t);
      RunStaysEnabled(Apply(p, steps[0]), steps[1..], steps[0].now);
    }
  }
}

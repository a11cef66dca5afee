/** What the other calls do, in the fields of the pool and of their arguments alone, for every state that any
    run reaches. */
module Effects {
  import opened Basics
  import opened Failures
  import opened Accounts
  import opened Durable
  import opened Scheduler
  import opened Invariants
  import opened Blocks
  import opened Decisions

  // ---------------------------------------------------------------- saving

  /** `q` is what a save of `m` leaves, by the step that fails: the file is the memory once the rename has
      happened, and only a flawless save lifts a write fault. */
  ghost predicate SavedAs(q: Pool, m: Pool, f: SaveFault) {
    && q == m.(store := q.store, fault := q.fault)
    && (f in {Flawless, OpenDirectory, SyncDirectory} ==> q.store == Attached(Written(m.mem)))
    && (f in {Encode, CreateTemp, Chmod, WriteTemp, SyncTemp, CloseTemp, Rename} ==> q.store == m.store)
    && (f == Flawless ==> q.fault == if m.fault == StateWriteFailed then NoFault else m.fault)
    && (f != Flawless ==> q.fault == StateWriteFailed)
  }

  lemma SaveExactly(p: Pool, f: SaveFault)
    requires p.store.Attached?
    ensures SavedAs(Save(p, f).0, p, f) && (Save(p, f).1 <==> f == Flawless)
  {
  }

  // ---------------------------------------------------------------- Observe

  /** The record is about a key of this pool. */
  ghost predicate IsOurs(p: Pool, rec: Usage) {
    && !p.closed && p.store.Attached?
    && rec.authID in p.byAuthID && !rec.foreign && p.byAuthID[rec.authID] in p.mem.keys
  }

  /** Any other record changes nothing. It is an error only for an open pool without a store. */
  lemma ObserveElsewhere(p: Pool, rec: Usage, c: Classification, now: Time, f: SaveFault)
    requires !IsOurs(p, rec)
    ensures Observe(p, rec, c, now, f) == (p, p.closed || p.store.Attached?)
  {
  }

  /** `t` is the instant that the record is dated to: the end of its request, if that is known and past. */
  predicate DatedTo(rec: Usage, now: Time, t: Time) {
    if rec.requestedAt != 0 && 0 <= rec.latency && rec.requestedAt + rec.latency <= now
    then t == rec.requestedAt + rec.latency
    else t == now
  }

  /** A failure that counts against the key: requested at the barrier or later, and not older than the last. */
  predicate Counts(k: KeyRecord, rec: Usage, t: Time) {
    && rec.failed && t >= k.lastFailureAt
    && (k.ignoreBefore == 0 || (rec.requestedAt != 0 && rec.requestedAt >= k.ignoreBefore))
  }

  /** `k'` is `k` after the record, field by field. */
  ghost predicate RecordAfter(k: KeyRecord, k': KeyRecord, cfg: Configuration, rec: Usage, c: Classification, now: Time, t: Time) {
    && (!rec.failed ==>
          k' == k.(success := k'.success, lastSuccessAt := if t > k.lastSuccessAt then t else k.lastSuccessAt)
          && k'.success == Bump(k.success))
    && (rec.failed ==> k'.failed == Bump(k.failed) && k'.success == k.success && k'.lastSuccessAt == k.lastSuccessAt)
    && (rec.failed && !Counts(k, rec, t) ==> k' == k.(failed := k'.failed))
    && (Counts(k, rec, t) ==>
          && k'.lastFailureAt == t
          && (c.kind != Quota || c.until <= now ==> k'.exhaustedUntil == k.exhaustedUntil && k'.ignoreBefore == k.ignoreBefore)
          && (c.kind == Quota && c.until > now ==> k'.exhaustedUntil == c.until && k'.ignoreBefore == c.until)
          && k'.suspendedUntil == (if c.kind == Auth then t + cfg.authSuspension else k.suspendedUntil)
          && k'.transientUntil == (if c.kind == Transient then t + cfg.transientFallback else k.transientUntil)
          && (c.kind != RateLimit ==> k'.rateLimitedUntil == k.rateLimitedUntil)
          && (c.kind == RateLimit ==>
                k'.lastFailure == if c.until == 0 then Classification(RateLimit, t + cfg.rateFallback, RateLimitFallback, NoValidRateReset) else c)
          && (c.kind == RateLimit ==>
                k'.rateLimitedUntil == if k'.lastFailure.until > k.rateLimitedUntil then k'.lastFailure.until else k.rateLimitedUntil)
          && (c.kind == Transient ==> k'.lastFailure == Classification(Transient, k'.transientUntil, TransientFallback, UpstreamFailure))
          && (c.kind !in {RateLimit, Transient} ==> k'.lastFailure == c))
  }

  lemma CreditExactly(k: KeyRecord, cfg: Configuration, rec: Usage, c: Classification, now: Time, t: Time)
    requires DatedTo(rec, now, t)
    ensures RecordAfter(k, Credit(k, cfg, rec, c, now), cfg, rec, c, now, t)
  {
  }

  /** The record makes the scheduler leave its key, if that is current. */
  predicate Leaving(k: KeyRecord, rec: Usage, c: Classification, now: Time, t: Time) {
    Counts(k, rec, t) && (c.kind == Auth || c.kind == Transient || (c.kind == Quota && c.until > now))
  }

  /** A record of this pool: its key is credited as above and no other, the current account is left exactly
      for those failures of its own, for the first free one behind it, and then all of it is saved. */
  lemma ObserveExactly(p: Pool, rec: Usage, c: Classification, now: Time, f: SaveFault, at: int, t: Time, T: Time)
    requires Consistent(p, T) && IsOurs(p, rec) && DatedTo(rec, now, t) && IsPosition(p.cfg.accounts, p.byAuthID[rec.authID], at)
    ensures var h := p.byAuthID[rec.authID];
            var k, (q, ok) := p.mem.keys[h], Observe(p, rec, c, now, f);
            && (ok <==> f == Flawless) && SavedAs(q, p.(mem := q.mem), f)
            && q.mem.keys.Keys == p.mem.keys.Keys
            && RecordAfter(k, q.mem.keys[h], p.cfg, rec, c, now, t)
            && (forall g :: g in p.mem.keys && g != h ==> q.mem.keys[g] == p.mem.keys[g])
            && (p.mem.current != h || !Leaving(k, rec, c, now, t) ==> q.mem.current == p.mem.current && q.mem.cursor == p.mem.cursor)
            && (p.mem.current == h && Leaving(k, rec, c, now, t) ==>
                  Selected(q.mem, q.mem.(cursor := h), p.cfg.accounts, at, now))
  {
    var h := p.byAuthID[rec.authID];
    var k := p.mem.keys[h];
    CreditExactly(k, p.cfg, rec, c, now, t);
    ObserveKeys(p, rec, c, now, f);
    if p.mem.current == h && Leaving(k, rec, c, now, t) {
      LeavingSelects(p, rec, c, now, f, at, T);
    }
  }

  lemma LeavingSelects(p: Pool, rec: Usage, c: Classification, now: Time, f: SaveFault, at: int, T: Time)
    requires Consistent(p, T) && IsOurs(p, rec) && IsPosition(p.cfg.accounts, p.byAuthID[rec.authID], at)
    requires p.mem.current == p.byAuthID[rec.authID] && Advances(p.mem.keys[p.mem.current], rec, c, now)
    ensures var m := Observe(p, rec, c, now, f).0.mem;
            Selected(m, m.(cursor := p.mem.current), p.cfg.accounts, at, now)
  {
    var h := p.mem.current;
    var m := Credited(p.mem, p.cfg, h, rec, c, now).(cursor := h);
    AllRecorded(p, T);
    IndexIsNotEmpty(p, rec.authID, T);
    ChooseSelects(m, p.cfg.accounts, h, at, now);
    var q := Choose(m, p.cfg.accounts, h, now);
    assert Observe(p, rec, c, now, f).0.mem == q;
    SelectedByRecords(q, m, q.(cursor := h), p.cfg.accounts, at, now);
  }

  lemma IndexIsNotEmpty(p: Pool, id: string, t: Time)
    requires Consistent(p, t) && id in p.byAuthID
    ensures p.cfg.accounts != []
  {
    FingerprintsEmpty(p.cfg.accounts, p.byAuthID[id]);
  }

  /** Selection depends on the records and on the cursor before it only. */
  lemma SelectedByRecords(q: Persisted, m: Persisted, m': Persisted, accounts: seq<Account>, at: int, now: Time)
    requires Selected(q, m, accounts, at, now) && m.keys == m'.keys && m.version == m'.version && m.cursor == m'.cursor
    ensures Selected(q, m', accounts, at, now)
  {
    forall i | 0 <= i < |accounts|
      ensures IsFree(m, accounts[i], now) <==> IsFree(m', accounts[i], now)
    {
    }
    if i :| FirstFree(m, accounts, at, i, now) && q.current == accounts[i].fingerprint && q.cursor == accounts[i].fingerprint {
      assert FirstFree(m', accounts, at, i, now);
    }
  }

  // ---------------------------------------------------------------- Resume

  /** Account `i` is the first one with the label. */
  ghost predicate IsLabelled(accounts: seq<Account>, name: string, i: int) {
    0 <= i < |accounts| && accounts[i].name == name && forall j :: 0 <= j < i ==> accounts[j].name != name
  }

  lemma {:induction false} LabelFromExactly(accounts: seq<Account>, name: string, start: nat)
    requires start <= |accounts|
    ensures var i := LabelFrom(accounts, name, start);
            && (i < |accounts| ==> accounts[i].name == name)
            && (forall j :: start <= j < i ==> accounts[j].name != name)
    decreases |accounts| - start
  {
    if start < |accounts| && accounts[start].name != name {
      LabelFromExactly(accounts, name, start + 1);
    }
  }

  lemma ResumesExactly(p: Pool, name: string, confirm: string)
    ensures Resumes(p, name, confirm) <==>
            confirm == "clear-cooldown" && !p.closed && exists i :: IsLabelled(p.cfg.accounts, name, i) && !p.cfg.accounts[i].disabled
    ensures Resumes(p, name, confirm) ==> IsLabelled(p.cfg.accounts, name, LabelIndex(p.cfg.accounts, name))
  {
    LabelFromExactly(p.cfg.accounts, name, 0);
  }

  /** A resume that is not in order does nothing and says so: another confirmation, a stopped pool, or no
      account with the label, or a disabled first one. */
  lemma ResumeRefused(p: Pool, name: string, confirm: string, now: Time, f: SaveFault)
    requires confirm != "clear-cooldown" || p.closed || forall i :: IsLabelled(p.cfg.accounts, name, i) ==> p.cfg.accounts[i].disabled
    ensures Resume(p, name, confirm, now, f) == (p, false)
  {
    ResumesExactly(p, name, confirm);
  }

  /** Otherwise exactly the record of the first account with the label is cleared: its four blocks are over,
      its barrier is now, and its history stays. No other record changes, nor what is current. */
  lemma ResumeExactly(p: Pool, name: string, i: nat, now: Time, f: SaveFault, t: Time)
    requires Consistent(p, t) && !p.closed && IsLabelled(p.cfg.accounts, name, i) && !p.cfg.accounts[i].disabled
    ensures var h, (q, ok) := p.cfg.accounts[i].fingerprint, Resume(p, name, "clear-cooldown", now, f);
            && h in p.mem.keys && q.mem == p.mem.(keys := q.mem.keys) && q.mem.keys.Keys == p.mem.keys.Keys
            && q.mem.keys[h] == p.mem.keys[h].(exhaustedUntil := 0, suspendedUntil := 0, rateLimitedUntil := 0, transientUntil := 0, ignoreBefore := now)
            && (forall g :: g in p.mem.keys && g != h ==> q.mem.keys[g] == p.mem.keys[g])
            && (ok <==> p.store.Attached? && f == Flawless)
            && (p.store.Attached? ==> SavedAs(q, p.(mem := q.mem), f)) && (p.store.NoStore? ==> q == p.(mem := q.mem))
  {
    ResumesExactly(p, name, "clear-cooldown");
    FingerprintAt(p.cfg.accounts, i);
    LabelFromExactly(p.cfg.accounts, name, 0);
  }

  // ---------------------------------------------------------------- Reconfigure

  /** A reconfiguration without a store, or with another state directory, does nothing and says so. */
  lemma ReconfigureRefused(p: Pool, cfg: Configuration, now: Time, f: SaveFault)
    requires p.store.NoStore? || cfg.stateDir != p.cfg.stateDir
    ensures Reconfigure(p, cfg, now, f) == (p, false)
  {
  }

  /** The account is configured, at this position, and enabled. */
  ghost predicate IsAvailable(accounts: seq<Account>, hash: string) {
    exists i :: 0 <= i < |accounts| && accounts[i].fingerprint == hash && !accounts[i].disabled
  }

  /** What a reconfiguration makes of a pool, before it is saved. */
  ghost predicate ReplacedBy(p: Pool, q: Pool, cfg: Configuration, at: int, now: Time) {
    && q == Pool(cfg, q.mem, q.byAuthID, p.store, NoFault, p.closed) && GoodIndex(q.byAuthID, cfg.accounts)
    && q.mem.keys.Keys == p.mem.keys.Keys + Fingerprints(cfg.accounts)
    && (forall h :: h in q.mem.keys ==> q.mem.keys[h] == if h in p.mem.keys then p.mem.keys[h] else FreshKey)
    && (IsAvailable(cfg.accounts, p.mem.current) ==> q.mem.current == p.mem.current && q.mem.cursor == p.mem.cursor)
    && (!IsAvailable(cfg.accounts, p.mem.current) ==> Selected(q.mem, q.mem.(cursor := p.mem.cursor), cfg.accounts, at, now))
  }

  lemma ReconfiguredExactly(p: Pool, cfg: Configuration, now: Time, at: int)
    requires GoodAccounts(cfg.accounts) && IsPosition(cfg.accounts, p.mem.cursor, at)
    ensures ReplacedBy(p, Reconfigured(p, cfg, now), cfg, at, now)
  {
    WithKeysValue(p.mem.keys, cfg.accounts);
    IndexIsGood(p.byAuthID, cfg.accounts);
    var m := Install(p, cfg).(fault := NoFault);
    StrandedExactly(m);
    if Stranded(m) {
      ReplacedIsSelected(m, at, now);
    }
  }

  /** Otherwise the configuration is the new one, with a record for each of its keys and all old records as they
      were. A current account that is still enabled stays; any other is replaced by the first free one behind
      the cursor. The whole is saved, and the fault is gone unless the save fails. */
  lemma ReconfigureExactly(p: Pool, cfg: Configuration, now: Time, f: SaveFault, at: int)
    requires GoodAccounts(cfg.accounts) && IsPosition(cfg.accounts, p.mem.cursor, at)
    requires p.store.Attached? && cfg.stateDir == p.cfg.stateDir
    ensures var (q, ok) := Reconfigure(p, cfg, now, f);
            var m := q.(store := p.store, fault := NoFault);
            (ok <==> f == Flawless) && ReplacedBy(p, m, cfg, at, now) && SavedAs(q, m, f)
  {
    ReconfiguredExactly(p, cfg, now, at);
    SaveExactly(Reconfigured(p, cfg, now), f);
    assert Reconfigure(p, cfg, now, f).0.(store := p.store, fault := NoFault) == Reconfigured(p, cfg, now);
  }

  lemma StrandedExactly(p: Pool)
    requires GoodAccounts(p.cfg.accounts)
    ensures Stranded(p) <==> !IsAvailable(p.cfg.accounts, p.mem.current)
  {
    IndexOfIsFirst(p.cfg.accounts, p.mem.current);
    if i :| 0 <= i < |p.cfg.accounts| && p.cfg.accounts[i].fingerprint == p.mem.current && !p.cfg.accounts[i].disabled {
      IndexOfUnique(p.cfg.accounts, i);
    }
  }

  lemma ReplacedIsSelected(m: Pool, at: int, now: Time)
    requires GoodAccounts(m.cfg.accounts) && Fingerprints(m.cfg.accounts) <= m.mem.keys.Keys && Stranded(m)
    requires IsPosition(m.cfg.accounts, m.mem.cursor, at)
    ensures var q := Rehoused(m, now);
            q.mem.keys == m.mem.keys && Selected(q.mem, q.mem.(cursor := m.mem.cursor), m.cfg.accounts, at, now)
  {
    var accounts, m' := m.cfg.accounts, m.mem.(current := "");
    var q := Rehoused(m, now).mem;
    if accounts != [] {
      forall i | 0 <= i < |accounts|
        ensures accounts[i].fingerprint in m'.keys
      {
        FingerprintAt(accounts, i);
      }
      ChooseSelects(m', accounts, m'.cursor, at, now);
      SelectedByRecords(q, m', q.(cursor := m.mem.cursor), accounts, at, now);
    }
  }

  // ---------------------------------------------------------------- Close and creation

  /** Closing stops the pool and saves it once. */
  lemma CloseExactly(p: Pool, f: SaveFault)
    ensures p.closed ==> Close(p, f) == p
    ensures !p.closed && p.store.NoStore? ==> Close(p, f) == p.(closed := true)
    ensures !p.closed && p.store.Attached? ==> SavedAs(Close(p, f), p.(closed := true), f)
  {
  }

  /** A stopped pool hands nothing out, admits no managed model, and takes no record and no resume. */
  lemma StoppedIsSilent(p: Pool, req: Request, model: string, rec: Usage, c: Classification, name: string, confirm: string, now: Time, f: SaveFault)
    requires p.closed
    ensures !Pick(p, req, now, f).1.Handled? && Pick(p, req, now, f).0 == p
    ensures Guard(p, model, true, now).1.Admitted? <==> p.cfg.accounts == [] || model !in p.cfg.models
    ensures Observe(p, rec, c, now, f).0 == p && Resume(p, name, confirm, now, f) == (p, false)
  {
  }

  /** A pool that is opened has the configuration, the file and its records, no fault, and the current account
      of the file if that is configured. */
  lemma OpenedExactly(cfg: Configuration, s: Persisted, c: Contents)
    requires GoodAccounts(cfg.accounts)
    ensures var p := Opened(cfg, s, c);
            && p.cfg == cfg && p.store == Attached(c) && p.fault == NoFault && !p.closed
            && p.mem.cursor == s.cursor && p.mem.keys.Keys == s.keys.Keys + Fingerprints(cfg.accounts)
            && (forall h :: h in p.mem.keys ==> p.mem.keys[h] == if h in s.keys then s.keys[h] else FreshKey)
            && p.mem.current == (if s.current in Fingerprints(cfg.accounts) then s.current else "")
            && GoodIndex(p.byAuthID, cfg.accounts)
  {
    WithKeysValue(s.keys, cfg.accounts);
    IndexIsGood(map[], cfg.accounts);
    IndexOfIsFirst(cfg.accounts, s.current);
  }

  /** A pool that is created with a fault has no store and no current account, and answers for the default
      provider if the configuration names none. */
  lemma FaultedExactly(cfg: Configuration, fault: Fault)
    ensures var p := FaultedPool(cfg, fault);
            && p.store.NoStore? && p.fault == fault && !p.closed && p.mem.current == ""
            && p.cfg == cfg.(provider := p.cfg.provider)
            && p.cfg.provider == (if cfg.provider == "" then "openai-compatible-opencode-zen" else cfg.provider)
  {
  }
}

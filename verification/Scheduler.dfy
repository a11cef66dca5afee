/** The scheduler of src/pool.go as a state machine over values: one function per public method,
    each taken under the mutex and therefore atomic. Module PoolObject refines it. */
module Scheduler {
  import opened Basics
  import opened Failures
  import opened Accounts
  import opened Durable

  datatype Fault = NoFault | StateWriteFailed | InternalError | ConfigurationError | StateUnavailable | RestartRequired

  /** `NoStore` is the nil store of a pool that was created faulted. */
  datatype StoreState = NoStore | Attached(contents: Contents)

  datatype Pool = Pool(cfg: Configuration, mem: Persisted, byAuthID: map<string, string>,
                       store: StoreState, fault: Fault, closed: bool)

  datatype Verdict = Eligible | Disabled | Exhausted | Suspended | RateLimited | Quarantined

  datatype Reason = PluginStopped | Faulted(fault: Fault) | AllUnavailable | WriteFailed
                  | NotACandidate | CurrentBlocked(verdict: Verdict) | HeaderNotForwarded

  datatype Candidate = Candidate(id: string, provider: string, disabled: bool)

  datatype Request = Request(provider: string, providers: seq<string>, candidates: seq<Candidate>)

  datatype PickResult = Unmanaged | Handled(authID: string) | Refused(reason: Reason)

  datatype GuardResult = Admitted | Rejected(reason: Reason)

  /** A usage event. `foreign` says that it names a base URL other than Zen's. */
  datatype Usage = Usage(authID: string, foreign: bool, requestedAt: Time, latency: int, failed: bool, response: Response)

  // ---------------------------------------------------------------- verdicts and selection

  function KeyOf(mem: Persisted, hash: string): KeyRecord {
    if hash in mem.keys then mem.keys[hash] else FreshKey
  }

  function VerdictOf(k: KeyRecord, disabled: bool, now: Time): Verdict {
    if disabled then Disabled
    else if now < k.exhaustedUntil then Exhausted
    else if now < k.suspendedUntil then Suspended
    else if now < k.rateLimitedUntil then RateLimited
    else if now < k.transientUntil then Quarantined
    else Eligible
  }

  function Blocked(mem: Persisted, a: Account, now: Time): Verdict {
    VerdictOf(KeyOf(mem, a.fingerprint), a.disabled, now)
  }

  /** The verdict on an account looked up by fingerprint; a missing account counts as disabled. */
  function BlockedHash(mem: Persisted, accounts: seq<Account>, hash: string, now: Time): Verdict {
    var i := IndexOf(accounts, hash);
    if i == |accounts| then Disabled else Blocked(mem, accounts[i], now)
  }

  predicate IsEligible(mem: Persisted, accounts: seq<Account>, i: int, now: Time)
  {
    0 <= i < |accounts| && Blocked(mem, accounts[i], now) == Eligible
  }

  /** The position `j` places after `start`, going round `n` places: `(start + j) % n`. */
  function Around(start: nat, j: nat, n: nat): (i: nat)
    requires start < n && j <= n
    ensures i < n
  {
    if start + j < n then start + j else start + j - n
  }

  lemma AroundIsModulo(start: nat, j: nat, n: nat)
    requires start < n && j <= n
    ensures Around(start, j, n) == (start + j) % n
  {
  }

  /** Where a selection after the account `after` starts looking. */
  function Start(accounts: seq<Account>, after: string): (i: nat)
    ensures accounts != [] ==> i < |accounts|
  {
    var i := IndexOf(accounts, after);
    if i == |accounts| then 0 else Around(i, 1, |accounts|)
  }

  /** The first eligible position at distance `j` or more from `start`, going round once. */
  function Search(mem: Persisted, accounts: seq<Account>, start: nat, j: nat, now: Time): (r: Option<nat>)
    requires accounts != [] ==> start < |accounts|
    ensures r.Some? ==> IsEligible(mem, accounts, r.value, now)
    decreases |accounts| - j
  {
    if j >= |accounts| then None
    else
      var i := Around(start, j, |accounts|);
      if Blocked(mem, accounts[i], now) == Eligible then Some(i) else Search(mem, accounts, start, j + 1, now)
  }

  function Next(mem: Persisted, accounts: seq<Account>, after: string, now: Time): Option<nat> {
    Search(mem, accounts, Start(accounts, after), 0, now)
  }

  /** `chooseLocked`: make the next eligible account current, or none. */
  function Choose(mem: Persisted, accounts: seq<Account>, after: string, now: Time): Persisted {
    if accounts == [] then mem
    else match Next(mem, accounts, after, now)
      case Some(i) => mem.(current := accounts[i].fingerprint, cursor := accounts[i].fingerprint)
      case None => mem.(current := "")
  }

  // ---------------------------------------------------------------- saving

  /** `saveLocked`, with whether it succeeded. */
  function Save(p: Pool, f: SaveFault): (Pool, bool) {
    if p.store.NoStore? then (p, false)
    else
      var q := p.(store := Attached(AfterSave(p.store.contents, p.mem, f)));
      if f != Flawless then (q.(fault := StateWriteFailed), false)
      else (q.(fault := if p.fault == StateWriteFailed then NoFault else p.fault), true)
  }

  // ---------------------------------------------------------------- Pick

  predicate Managed(p: Pool, req: Request) {
    && (p.cfg.accounts != [] || p.fault != NoFault)
    && (|| req.provider == p.cfg.provider
        || p.cfg.provider in req.providers
        || exists c :: c in req.candidates && (c.id in p.byAuthID || c.provider == p.cfg.provider))
  }

  predicate Listed(req: Request, authID: string) {
    exists c :: c in req.candidates && c.id == authID && !c.disabled
  }

  function Offer(a: Account, req: Request): PickResult {
    if Listed(req, a.authID) then Handled(a.authID) else Refused(NotACandidate)
  }

  /** The verdict on the account that is current after the in-line failover of `Pick`. */
  function AfterFailOver(p: Pool, verdict: Verdict, now: Time): Verdict {
    if Next(p.mem, p.cfg.accounts, p.mem.current, now).None? then verdict
    else
      var mem := Choose(p.mem, p.cfg.accounts, p.mem.current, now);
      BlockedHash(mem, p.cfg.accounts, mem.current, now)
  }

  /** The second half of `Pick`, once there is a current account; lines 246-262 of src/pool.go
      are its in-line failover. */
  function PickCurrent(p: Pool, req: Request, now: Time): (Pool, PickResult) {
    var verdict := BlockedHash(p.mem, p.cfg.accounts, p.mem.current, now);
    if verdict == Suspended || verdict == Quarantined then
      var q := p.(mem := Choose(p.mem, p.cfg.accounts, p.mem.current, now));
      (q, Settle(q, AfterFailOver(p, verdict, now), req))
    else (p, Settle(p, verdict, req))
  }

  /** Offer the current account if the verdict on it allows that. */
  function Settle(p: Pool, verdict: Verdict, req: Request): PickResult {
    var i := IndexOf(p.cfg.accounts, p.mem.current);
    if verdict != Eligible || i == |p.cfg.accounts| then Refused(CurrentBlocked(verdict))
    else Offer(p.cfg.accounts[i], req)
  }

  /** Lines 237-244 of `Pick`: with no current account, select the next one and save that. */
  function Acquire(p: Pool, now: Time, f: SaveFault): (Pool, Option<Reason>) {
    if p.mem.current != "" then (p, None)
    else
      var q := p.(mem := Choose(p.mem, p.cfg.accounts, p.mem.cursor, now));
      if Next(p.mem, p.cfg.accounts, p.mem.cursor, now).None? then (q, Some(AllUnavailable))
      else
        var (r, ok) := Save(q, f);
        (r, if ok then None else Some(WriteFailed))
  }

  function Pick(p: Pool, req: Request, now: Time, f: SaveFault): (Pool, PickResult) {
    if !Managed(p, req) then (p, Unmanaged)
    else if p.closed then (p, Refused(PluginStopped))
    else if p.fault != NoFault then (p, Refused(Faulted(p.fault)))
    else
      var (q, refusal) := Acquire(p, now, f);
      if refusal.Some? then (q, Refused(refusal.value)) else PickCurrent(q, req, now)
  }

  // ---------------------------------------------------------------- Observe

  function ObservedAt(rec: Usage, now: Time): (t: Time)
    ensures t <= now
  {
    if rec.requestedAt == 0 || rec.latency < 0 || rec.requestedAt + rec.latency > now then now
    else rec.requestedAt + rec.latency
  }

  /** The gates in front of an observation: the record names a known auth of this provider. */
  predicate Accepted(p: Pool, rec: Usage) {
    && !p.closed && p.store.Attached?
    && rec.authID in p.byAuthID && !rec.foreign
    && p.byAuthID[rec.authID] in p.mem.keys
  }

  /** The generation barrier: the failure was requested before the last quota reset or resume. */
  predicate Ignored(k: KeyRecord, rec: Usage) {
    k.ignoreBefore != 0 && (rec.requestedAt == 0 || rec.requestedAt < k.ignoreBefore)
  }

  /** A failure that passes the barrier and is not older than the last one recorded. */
  predicate Effective(k: KeyRecord, rec: Usage, now: Time) {
    rec.failed && !Ignored(k, rec) && ObservedAt(rec, now) >= k.lastFailureAt
  }

  /** A kind of failure after which a key is left if it is current. */
  predicate Leaves(c: Classification, now: Time) {
    c.kind == Auth || c.kind == Transient || (c.kind == Quota && c.until > now)
  }

  /** The record is a failure, of class `c`, that makes the scheduler leave the key if it is current. */
  predicate Advances(k: KeyRecord, rec: Usage, c: Classification, now: Time) {
    Effective(k, rec, now) && Leaves(c, now)
  }

  /** The effect of an effective failure of class `c` on its key. */
  function Punish(k: KeyRecord, cfg: Configuration, c: Classification, observed: Time, now: Time): KeyRecord {
    var k' := k.(lastFailure := c, lastFailureAt := observed);
    match c.kind
    case Quota => if c.until > now then k'.(exhaustedUntil := c.until, ignoreBefore := c.until) else k'
    case Auth => k'.(suspendedUntil := observed + cfg.authSuspension)
    case RateLimit =>
      var c' := if c.until != 0 then c else c.(until := observed + cfg.rateFallback, source := RateLimitFallback, fallback := NoValidRateReset);
      k'.(lastFailure := c', rateLimitedUntil := Max(k.rateLimitedUntil, c'.until))
    case Transient =>
      k'.(transientUntil := observed + cfg.transientFallback,
          lastFailure := c.(until := observed + cfg.transientFallback, source := TransientFallback, fallback := UpstreamFailure))
    case _ => k'
  }

  /** The effect of an accepted record on its own key. */
  function Credit(k: KeyRecord, cfg: Configuration, rec: Usage, c: Classification, now: Time): KeyRecord {
    if !rec.failed then k.(success := Bump(k.success), lastSuccessAt := Max(k.lastSuccessAt, ObservedAt(rec, now)))
    else
      var counted := k.(failed := Bump(k.failed));
      if Effective(k, rec, now) then Punish(counted, cfg, c, ObservedAt(rec, now), now) else counted
  }

  function Credited(mem: Persisted, cfg: Configuration, hash: string, rec: Usage, c: Classification, now: Time): Persisted
    requires hash in mem.keys
  {
    mem.(keys := mem.keys[hash := Credit(mem.keys[hash], cfg, rec, c, now)])
  }

  /** The memory after an accepted record: the key is credited, and a current key that must be
      left hands over to the next eligible account. */
  function Absorb(mem: Persisted, cfg: Configuration, hash: string, rec: Usage, c: Classification, now: Time): Persisted
    requires hash in mem.keys
  {
    var m := Credited(mem, cfg, hash, rec, c, now);
    if mem.current == hash && Advances(mem.keys[hash], rec, c, now) then
      Choose(m.(cursor := hash), cfg.accounts, hash, now)
    else m
  }

  /** `Observe` of a record that the classifier puts in class `c`. */
  function Observe(p: Pool, rec: Usage, c: Classification, now: Time, f: SaveFault): (Pool, bool) {
    if p.closed then (p, true)
    else if p.store.NoStore? then (p, false)
    else if !Accepted(p, rec) then (p, true)
    else Save(p.(mem := Absorb(p.mem, p.cfg, p.byAuthID[rec.authID], rec, c, now)), f)
  }

  // ---------------------------------------------------------------- Guard

  predicate AnyEligible(mem: Persisted, accounts: seq<Account>, now: Time) {
    exists i :: 0 <= i < |accounts| && IsEligible(mem, accounts, i, now)
  }

  /** Lines 379-388 of `Guard`, including its in-line failover. */
  function GuardCurrent(p: Pool, now: Time): (Pool, GuardResult) {
    var verdict := BlockedHash(p.mem, p.cfg.accounts, p.mem.current, now);
    if verdict == Eligible then (p, Admitted)
    else if verdict == Suspended || verdict == Quarantined then
      (p.(mem := Choose(p.mem, p.cfg.accounts, p.mem.current, now)),
       if Next(p.mem, p.cfg.accounts, p.mem.current, now).Some? then Admitted else Rejected(CurrentBlocked(verdict)))
    else (p, Rejected(CurrentBlocked(verdict)))
  }

  /** `Guard`. `forwarded` is the outcome of the forwarding-header check. */
  function Guard(p: Pool, model: string, forwarded: bool, now: Time): (Pool, GuardResult) {
    if p.cfg.accounts == [] || model !in p.cfg.models then (p, Admitted)
    else if p.closed then (p, Rejected(PluginStopped))
    else if p.fault != NoFault then (p, Rejected(Faulted(p.fault)))
    else if !forwarded then (p, Rejected(HeaderNotForwarded))
    else if p.mem.current != "" then GuardCurrent(p, now)
    else (p, if AnyEligible(p.mem, p.cfg.accounts, now) then Admitted else Rejected(AllUnavailable))
  }

  // ---------------------------------------------------------------- Resume, Reconfigure, Close

  const CONFIRMATION := "clear-cooldown"

  /** Position of the first account with a label, or the number of accounts. */
  function LabelIndex(accounts: seq<Account>, name: string): (i: nat)
    ensures i <= |accounts|
  {
    LabelFrom(accounts, name, 0)
  }

  function LabelFrom(accounts: seq<Account>, name: string, start: nat): (i: nat)
    requires start <= |accounts|
    ensures start <= i <= |accounts|
    decreases |accounts| - start
  {
    if start == |accounts| || accounts[start].name == name then start else LabelFrom(accounts, name, start + 1)
  }

  function Cleared(k: KeyRecord, now: Time): KeyRecord {
    k.(exhaustedUntil := 0, suspendedUntil := 0, rateLimitedUntil := 0, transientUntil := 0, ignoreBefore := now)
  }

  function Forgiven(p: Pool, hash: string, now: Time): Pool {
    p.(mem := p.mem.(keys := p.mem.keys[hash := Cleared(KeyOf(p.mem, hash), now)]))
  }

  /** A resume that is carried out, and then saved. */
  predicate Resumes(p: Pool, name: string, confirm: string) {
    && confirm == CONFIRMATION && !p.closed
    && var i := LabelIndex(p.cfg.accounts, name);
       i < |p.cfg.accounts| && !p.cfg.accounts[i].disabled
  }

  function Resume(p: Pool, name: string, confirm: string, now: Time, f: SaveFault): (Pool, bool) {
    if !Resumes(p, name, confirm) then (p, false)
    else
      var hash := p.cfg.accounts[LabelIndex(p.cfg.accounts, name)].fingerprint;
      Save(Forgiven(p, hash, now), f)
  }

  /** Every configured key has a record; existing records are kept. */
  function WithKeys(keys: map<string, KeyRecord>, accounts: seq<Account>): map<string, KeyRecord> {
    if accounts == [] then keys
    else
      var h := accounts[|accounts| - 1].fingerprint;
      var before := WithKeys(keys, accounts[..|accounts| - 1]);
      if h in before then before else before[h := FreshKey]
  }

  /** The auth index after the new accounts are entered in order. */
  function Enter(index: map<string, string>, accounts: seq<Account>): map<string, string> {
    if accounts == [] then index
    else
      var a := accounts[|accounts| - 1];
      var before := Enter(index, accounts[..|accounts| - 1]);
      if a.authID != "" then before[a.authID := a.fingerprint] else before
  }

  /** Only the entries of keys that are still configured. */
  function Retained(index: map<string, string>, accounts: seq<Account>): map<string, string> {
    map id | id in index && index[id] in Fingerprints(accounts) :: index[id]
  }

  function Index(index: map<string, string>, accounts: seq<Account>): map<string, string> {
    Retained(Enter(index, accounts), accounts)
  }

  function Install(p: Pool, cfg: Configuration): Pool {
    p.(cfg := cfg, mem := p.mem.(keys := WithKeys(p.mem.keys, cfg.accounts)), byAuthID := Index(p.byAuthID, cfg.accounts))
  }

  /** The current account is missing or disabled. */
  predicate Stranded(p: Pool) {
    var i := IndexOf(p.cfg.accounts, p.mem.current);
    i == |p.cfg.accounts| || p.cfg.accounts[i].disabled
  }

  /** Replace a stranded current account. */
  function Rehoused(p: Pool, now: Time): Pool {
    if Stranded(p) then p.(mem := Choose(p.mem.(current := ""), p.cfg.accounts, p.mem.cursor, now)) else p
  }

  function Reconfigured(p: Pool, cfg: Configuration, now: Time): Pool {
    Rehoused(Install(p, cfg).(fault := NoFault), now)
  }

  function Reconfigure(p: Pool, cfg: Configuration, now: Time, f: SaveFault): (Pool, bool) {
    if p.store.NoStore? || cfg.stateDir != p.cfg.stateDir then (p, false)
    else Save(Reconfigured(p, cfg, now), f)
  }

  function Close(p: Pool, f: SaveFault): Pool {
    if p.closed then p
    else Save(p.(closed := true), f).0
  }

  // ---------------------------------------------------------------- creation

  /** `newPool` on a store whose load succeeded. */
  function Opened(cfg: Configuration, loaded: Persisted, contents: Contents): Pool {
    var p := Install(Pool(cfg, loaded, map[], Attached(contents), NoFault, false), cfg);
    if p.mem.current != "" && IndexOf(cfg.accounts, p.mem.current) == |cfg.accounts| then p.(mem := p.mem.(current := "")) else p
  }

  const DEFAULT_PROVIDER := "openai-compatible-opencode-zen"

  /** `faultedPool`: no store, and a fault that nothing but closing removes. */
  function FaultedPool(cfg: Configuration, fault: Fault): Pool {
    var named := if cfg.provider == "" then cfg.(provider := DEFAULT_PROVIDER) else cfg;
    Install(Pool(named, EmptyState, map[], NoStore, fault, false), named)
  }

  // ---------------------------------------------------------------- runs

  /** One atomic step. An observation carries the class of its failure; `FaultStep` is dispatch.go
      marking the pool as faulted. */
  datatype Step =
    | PickStep(req: Request, now: Time, save: SaveFault)
    | ObserveStep(rec: Usage, class_: Classification, now: Time, save: SaveFault)
    | GuardStep(model: string, forwarded: bool, now: Time)
    | ResumeStep(name: string, confirm: string, now: Time, save: SaveFault)
    | ReconfigureStep(cfg: Configuration, now: Time, save: SaveFault)
    | CloseStep(now: Time, save: SaveFault)
    | FaultStep(fault: Fault, now: Time)

  ghost function Apply(p: Pool, step: Step): Pool {
    match step
    case PickStep(req, now, f) => Pick(p, req, now, f).0
    case ObserveStep(rec, c, now, f) => Observe(p, rec, c, now, f).0
    case GuardStep(model, forwarded, now) => Guard(p, model, forwarded, now).0
    case ResumeStep(name, confirm, now, f) => Resume(p, name, confirm, now, f).0
    case ReconfigureStep(cfg, now, f) => Reconfigure(p, cfg, now, f).0
    case CloseStep(now, f) => Close(p, f)
    case FaultStep(fault, now) => p.(fault := fault)
  }

  /** A whole run: any interleaving of calls is some sequence of steps. */
  ghost function Run(p: Pool, steps: seq<Step>): Pool
    decreases |steps|
  {
    if steps == [] then p else Run(Apply(p, steps[0]), steps[1..])
  }

  /** The clock never goes back, starting from `t`. */
  ghost predicate Timed(steps: seq<Step>, t: Time) {
    steps == [] || (t <= steps[0].now && Timed(steps[1..], steps[0].now))
  }

  ghost function EndTime(steps: seq<Step>, t: Time): Time {
    if steps == [] then t else steps[|steps| - 1].now
  }

  /** The bounds of the classifier, which are all that the scheduler needs of it. */
  predicate WithinBounds(c: Classification, observed: Time) {
    c.until != 0 ==> c.kind in {Quota, RateLimit} && observed <= c.until <= observed + LONGEST
  }

  /** What the classifier, the configuration reader and the dispatcher guarantee about a step. */
  ghost predicate Proper(step: Step) {
    && (step.ObserveStep? ==> WithinBounds(step.class_, ObservedAt(step.rec, step.now)))
    && (step.ReconfigureStep? ==> GoodConfiguration(step.cfg))
    && (step.FaultStep? ==> step.fault in {InternalError, ConfigurationError, RestartRequired})
  }
}

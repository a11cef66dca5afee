/** What `Pick` and `Guard` decide, in the fields of the pool and of the request alone: every answer, for every
    state that any run reaches. */
module Decisions {
  import opened Basics
  import opened Accounts
  import opened Durable
  import opened Scheduler
  import opened Invariants
  import opened Rotation
  import opened Clock

  // ---------------------------------------------------------------- verdicts

  /** The account may be used: it is enabled and none of its four blocks is running. */
  ghost predicate IsFree(mem: Persisted, a: Account, now: Time) {
    && !a.disabled && a.fingerprint in mem.keys
    && mem.keys[a.fingerprint].exhaustedUntil <= now && mem.keys[a.fingerprint].suspendedUntil <= now
    && mem.keys[a.fingerprint].rateLimitedUntil <= now && mem.keys[a.fingerprint].transientUntil <= now
  }

  /** Why it may not be used: the first reason that applies, in this order. */
  ghost predicate IsHeld(mem: Persisted, a: Account, now: Time, v: Verdict) {
    && a.fingerprint in mem.keys
    && var k := mem.keys[a.fingerprint];
    match v
    case Eligible => false
    case Disabled => a.disabled
    case Exhausted => !a.disabled && now < k.exhaustedUntil
    case Suspended => !a.disabled && k.exhaustedUntil <= now < k.suspendedUntil
    case RateLimited => !a.disabled && k.exhaustedUntil <= now && k.suspendedUntil <= now < k.rateLimitedUntil
    case Quarantined =>
      !a.disabled && k.exhaustedUntil <= now && k.suspendedUntil <= now && k.rateLimitedUntil <= now < k.transientUntil
  }

  lemma VerdictExactly(mem: Persisted, a: Account, now: Time)
    requires a.fingerprint in mem.keys
    ensures Blocked(mem, a, now) == Eligible <==> IsFree(mem, a, now)
    ensures forall v :: v != Eligible ==> (Blocked(mem, a, now) == v <==> IsHeld(mem, a, now, v))
  {
  }

  lemma EligibleExactly(mem: Persisted, accounts: seq<Account>, i: nat, now: Time)
    requires i < |accounts| && accounts[i].fingerprint in mem.keys
    ensures IsEligible(mem, accounts, i, now) <==> IsFree(mem, accounts[i], now)
  {
    VerdictExactly(mem, accounts[i], now);
  }

  // ---------------------------------------------------------------- selection

  /** `at` is the position of the account with this fingerprint, or -1 when there is none. */
  ghost predicate IsPosition(accounts: seq<Account>, hash: string, at: int) {
    if at == -1 then forall i :: 0 <= i < |accounts| ==> accounts[i].fingerprint != hash
    else 0 <= at < |accounts| && accounts[at].fingerprint == hash
  }

  /** Going round from behind `at`, position `k` comes before position `i`. */
  predicate Precedes(at: int, k: int, i: int) {
    if at < i then at < k < i else at < k || k < i
  }

  ghost predicate FirstFree(mem: Persisted, accounts: seq<Account>, at: int, i: int, now: Time) {
    && 0 <= i < |accounts| && IsFree(mem, accounts[i], now)
    && forall k :: 0 <= k < |accounts| && Precedes(at, k, i) ==> !IsFree(mem, accounts[k], now)
  }

  ghost predicate AnyFree(mem: Persisted, accounts: seq<Account>, now: Time) {
    exists i :: 0 <= i < |accounts| && IsFree(mem, accounts[i], now)
  }

  /** `q` is `m` after a selection behind position `at`. */
  ghost predicate Selected(q: Persisted, m: Persisted, accounts: seq<Account>, at: int, now: Time) {
    && q.keys == m.keys && q.version == m.version
    && (!AnyFree(m, accounts, now) ==> q.current == "" && q.cursor == m.cursor)
    && (AnyFree(m, accounts, now) ==>
          exists i :: FirstFree(m, accounts, at, i, now) && q.current == accounts[i].fingerprint && q.cursor == accounts[i].fingerprint)
  }

  ghost predicate Recorded(mem: Persisted, accounts: seq<Account>) {
    forall i :: 0 <= i < |accounts| ==> accounts[i].fingerprint in mem.keys
  }

  lemma StartIsBehind(accounts: seq<Account>, after: string, at: int)
    requires GoodAccounts(accounts) && accounts != [] && IsPosition(accounts, after, at)
    ensures Start(accounts, after) == if at + 1 == |accounts| then 0 else at + 1
  {
    IndexOfIsFirst(accounts, after);
    if at >= 0 {
      IndexOfUnique(accounts, at);
    }
  }

  lemma AnyFreeExactly(mem: Persisted, accounts: seq<Account>, now: Time)
    requires Recorded(mem, accounts)
    ensures AnyFree(mem, accounts, now) <==> AnyEligible(mem, accounts, now)
  {
    forall i | 0 <= i < |accounts|
      ensures IsEligible(mem, accounts, i, now) <==> IsFree(mem, accounts[i], now)
    {
      EligibleExactly(mem, accounts, i, now);
    }
  }

  /** The next account is the first free one behind the given one, going round; there is none exactly when
      none is free. */
  lemma NextIsFirstFree(mem: Persisted, accounts: seq<Account>, after: string, at: int, now: Time)
    requires GoodAccounts(accounts) && accounts != [] && IsPosition(accounts, after, at) && Recorded(mem, accounts)
    ensures Next(mem, accounts, after, now).Some? <==> AnyFree(mem, accounts, now)
    ensures Next(mem, accounts, after, now).Some? ==> FirstFree(mem, accounts, at, Next(mem, accounts, after, now).value, now)
  {
    StartIsBehind(accounts, after, at);
    NextIsFirstEligible(mem, accounts, after, now);
    AnyFreeExactly(mem, accounts, now);
    var next := Next(mem, accounts, after, now);
    if next.Some? {
      EligibleExactly(mem, accounts, next.value, now);
      forall k | 0 <= k < |accounts| && Precedes(at, k, next.value)
        ensures !IsFree(mem, accounts[k], now)
      {
        EligibleExactly(mem, accounts, k, now);
        assert Distance(Start(accounts, after), k, |accounts|) < Distance(Start(accounts, after), next.value, |accounts|);
      }
    }
  }

  lemma ChooseSelects(m: Persisted, accounts: seq<Account>, after: string, at: int, now: Time)
    requires GoodAccounts(accounts) && accounts != [] && IsPosition(accounts, after, at) && Recorded(m, accounts)
    ensures Selected(Choose(m, accounts, after, now), m, accounts, at, now)
  {
    NextIsFirstFree(m, accounts, after, at, now);
  }

  lemma AllRecorded(p: Pool, t: Time)
    requires Consistent(p, t)
    ensures Recorded(p.mem, p.cfg.accounts)
  {
    forall i | 0 <= i < |p.cfg.accounts|
      ensures p.cfg.accounts[i].fingerprint in p.mem.keys
    {
      FingerprintAt(p.cfg.accounts, i);
    }
  }

  // ---------------------------------------------------------------- Pick

  /** The request concerns the pool: by its provider, its provider list, or one of its candidates. */
  ghost predicate Concerns(p: Pool, req: Request) {
    && (p.cfg.accounts != [] || p.fault != NoFault)
    && (|| req.provider == p.cfg.provider
        || (exists i :: 0 <= i < |req.providers| && req.providers[i] == p.cfg.provider)
        || (exists i :: 0 <= i < |req.candidates| && req.candidates[i].id in p.byAuthID)
        || (exists i :: 0 <= i < |req.candidates| && req.candidates[i].provider == p.cfg.provider))
  }

  lemma ManagedExactly(p: Pool, req: Request)
    ensures Managed(p, req) <==> Concerns(p, req)
  {
    if c :| c in req.candidates && (c.id in p.byAuthID || c.provider == p.cfg.provider) {
      var i :| 0 <= i < |req.candidates| && req.candidates[i] == c;
    }
    if i :| 0 <= i < |req.candidates| && (req.candidates[i].id in p.byAuthID || req.candidates[i].provider == p.cfg.provider) {
      assert req.candidates[i] in req.candidates;
    }
  }

  /** A request is passed on unmanaged exactly when it does not concern the pool. */
  lemma PickUnmanagedExactly(p: Pool, req: Request, now: Time, f: SaveFault)
    ensures Pick(p, req, now, f).1 == Unmanaged <==> !Concerns(p, req)
    ensures !Concerns(p, req) ==> Pick(p, req, now, f).0 == p
  {
    ManagedExactly(p, req);
  }

  /** A pool that is stopped or faulted refuses what concerns it, says why, and does nothing. */
  lemma PickWhenClosed(p: Pool, req: Request, now: Time, f: SaveFault)
    requires Concerns(p, req) && (p.closed || p.fault != NoFault)
    ensures Pick(p, req, now, f) == (p, Refused(if p.closed then PluginStopped else Faulted(p.fault)))
  {
    ManagedExactly(p, req);
  }

  /** The host lists the ID as a candidate that it has not disabled. */
  ghost predicate IsLive(req: Request, id: string) {
    exists i :: 0 <= i < |req.candidates| && req.candidates[i].id == id && !req.candidates[i].disabled
  }

  lemma ListedExactly(req: Request, id: string)
    ensures Listed(req, id) <==> IsLive(req, id)
  {
    if c :| c in req.candidates && c.id == id && !c.disabled {
      var i :| 0 <= i < |req.candidates| && req.candidates[i] == c;
    }
    if i :| 0 <= i < |req.candidates| && req.candidates[i].id == id && !req.candidates[i].disabled {
      assert req.candidates[i] in req.candidates;
    }
  }

  /** The answer for an account that may be used. */
  ghost predicate Answers(r: PickResult, a: Account, req: Request) {
    r == if IsLive(req, a.authID) then Handled(a.authID) else Refused(NotACandidate)
  }

  /** Whatever is handed out, in whatever state: the host listed it and has not disabled it. */
  lemma HandedOutIsLive(p: Pool, req: Request, now: Time, f: SaveFault)
    ensures Pick(p, req, now, f).1.Handled? ==> IsLive(req, Pick(p, req, now, f).1.authID)
  {
    if Pick(p, req, now, f).1.Handled? {
      ListedExactly(req, Pick(p, req, now, f).1.authID);
    }
  }

  /** An open pool without a fault, and a request that concerns it. */
  ghost predicate Serves(p: Pool, req: Request) {
    !p.closed && p.fault == NoFault && Concerns(p, req)
  }

  /** With a current account that may be used, a pick offers it and changes nothing. */
  lemma PickWhenCurrentIsFree(p: Pool, req: Request, i: nat, now: Time, f: SaveFault, t: Time)
    requires Consistent(p, t) && Serves(p, req)
    requires i < |p.cfg.accounts| && p.cfg.accounts[i].fingerprint == p.mem.current && IsFree(p.mem, p.cfg.accounts[i], now)
    ensures Pick(p, req, now, f).0 == p && Answers(Pick(p, req, now, f).1, p.cfg.accounts[i], req)
  {
    ManagedExactly(p, req);
    HashNotEmpty(p.cfg.accounts, i);
    IndexOfUnique(p.cfg.accounts, i);
    VerdictExactly(p.mem, p.cfg.accounts[i], now);
    ListedExactly(req, p.cfg.accounts[i].authID);
  }

  /** In particular, on the raw candidates: the account is handed out exactly when it is listed alive. */
  lemma PickHandsOutExactly(p: Pool, req: Request, i: nat, now: Time, f: SaveFault, t: Time)
    requires Consistent(p, t) && !p.closed && p.fault == NoFault
    requires i < |p.cfg.accounts| && p.cfg.accounts[i].fingerprint == p.mem.current && IsFree(p.mem, p.cfg.accounts[i], now)
    ensures Pick(p, req, now, f).1 == Handled(p.cfg.accounts[i].authID) <==> IsLive(req, p.cfg.accounts[i].authID)
  {
    HandedOutIsLive(p, req, now, f);
    if IsLive(req, p.cfg.accounts[i].authID) {
      assert p.cfg.accounts[i].authID in p.byAuthID;
      PickWhenCurrentIsFree(p, req, i, now, f, t);
    }
  }

  /** A current account that is disabled, exhausted or rate-limited is refused with that reason, and stays. */
  lemma PickWhenCurrentIsHeld(p: Pool, req: Request, i: nat, v: Verdict, now: Time, f: SaveFault, t: Time)
    requires Consistent(p, t) && Serves(p, req)
    requires i < |p.cfg.accounts| && p.cfg.accounts[i].fingerprint == p.mem.current
    requires IsHeld(p.mem, p.cfg.accounts[i], now, v) && v in {Disabled, Exhausted, RateLimited}
    ensures Pick(p, req, now, f) == (p, Refused(CurrentBlocked(v)))
  {
    ManagedExactly(p, req);
    HashNotEmpty(p.cfg.accounts, i);
    IndexOfUnique(p.cfg.accounts, i);
    VerdictExactly(p.mem, p.cfg.accounts[i], now);
  }

  /** The answer for whatever account is current in `mem`. */
  ghost predicate AnswersFor(r: PickResult, mem: Persisted, accounts: seq<Account>, req: Request) {
    exists j :: 0 <= j < |accounts| && accounts[j].fingerprint == mem.current && Answers(r, accounts[j], req)
  }

  /** A current account that is suspended or in quarantine is left for the first free one behind it, which is
      offered. If there is none, no account is current any more. Nothing is saved. */
  lemma PickWhenCurrentIsDead(p: Pool, req: Request, i: nat, v: Verdict, now: Time, f: SaveFault, t: Time)
    requires Consistent(p, t) && Serves(p, req)
    requires i < |p.cfg.accounts| && p.cfg.accounts[i].fingerprint == p.mem.current
    requires IsHeld(p.mem, p.cfg.accounts[i], now, v) && v in {Suspended, Quarantined}
    ensures var (q, r) := Pick(p, req, now, f);
            && q == p.(mem := q.mem) && Selected(q.mem, p.mem, p.cfg.accounts, i, now)
            && (AnyFree(p.mem, p.cfg.accounts, now) ==> AnswersFor(r, q.mem, p.cfg.accounts, req))
            && (!AnyFree(p.mem, p.cfg.accounts, now) ==> r == Refused(CurrentBlocked(v)))
  {
    ManagedExactly(p, req);
    AllRecorded(p, t);
    HashNotEmpty(p.cfg.accounts, i);
    IndexOfUnique(p.cfg.accounts, i);
    VerdictExactly(p.mem, p.cfg.accounts[i], now);
    ChooseSelects(p.mem, p.cfg.accounts, p.mem.current, i, now);
    NextIsFirstFree(p.mem, p.cfg.accounts, p.mem.current, i, now);
    if Successor(p, now).Some? {
      SuccessorIsOffered(p, req, t, now);
      ListedExactly(req, p.cfg.accounts[Successor(p, now).value].authID);
      assert AnswersFor(Pick(p, req, now, f).1, Pick(p, req, now, f).0.mem, p.cfg.accounts, req);
    }
  }

  /** Without a current account, the first free one behind the cursor becomes current, is saved, and is
      offered only if the save succeeds. If there is none, nothing changes. */
  lemma PickWhenNoneIsCurrent(p: Pool, req: Request, at: int, now: Time, f: SaveFault, t: Time)
    requires Consistent(p, t) && Serves(p, req) && p.mem.current == "" && IsPosition(p.cfg.accounts, p.mem.cursor, at)
    ensures var (q, r) := Pick(p, req, now, f);
            && Selected(q.mem, p.mem, p.cfg.accounts, at, now) && q.cfg == p.cfg && q.byAuthID == p.byAuthID && q.closed == p.closed
            && (!AnyFree(p.mem, p.cfg.accounts, now) ==> q == p && r == Refused(AllUnavailable))
            && (AnyFree(p.mem, p.cfg.accounts, now) && f != Flawless ==> q.fault == StateWriteFailed && r == Refused(WriteFailed))
            && (AnyFree(p.mem, p.cfg.accounts, now) && f == Flawless ==>
                  q.fault == NoFault && q.store == Attached(Written(q.mem)) && AnswersFor(r, q.mem, p.cfg.accounts, req))
  {
    ManagedExactly(p, req);
    AllRecorded(p, t);
    ChooseSelects(p.mem, p.cfg.accounts, p.mem.cursor, at, now);
    NextIsFirstFree(p.mem, p.cfg.accounts, p.mem.cursor, at, now);
    if Next(p.mem, p.cfg.accounts, p.mem.cursor, now).Some? && f == Flawless {
      SelectedIsOffered(p, req, now, t);
    }
  }

  lemma SelectedIsOffered(p: Pool, req: Request, now: Time, t: Time)
    requires Consistent(p, t) && Serves(p, req) && p.mem.current == ""
    requires Next(p.mem, p.cfg.accounts, p.mem.cursor, now).Some?
    ensures var (q, r) := Pick(p, req, now, Flawless);
            && q == Acquire(p, now, Flawless).0 && q.mem == Choose(p.mem, p.cfg.accounts, p.mem.cursor, now)
            && AnswersFor(r, q.mem, p.cfg.accounts, req)
  {
    ManagedExactly(p, req);
    AcquiredStays(p, req, t, now, Flawless);
    var j := Next(p.mem, p.cfg.accounts, p.mem.cursor, now).value;
    IndexOfUnique(p.cfg.accounts, j);
    ListedExactly(req, p.cfg.accounts[j].authID);
    assert IsEligible(p.mem, p.cfg.accounts, j, now);
  }

  // ---------------------------------------------------------------- Guard

  /** Models that the pool does not manage pass, whatever its state. */
  lemma GuardUnmanaged(p: Pool, model: string, forwarded: bool, now: Time)
    requires p.cfg.accounts == [] || model !in p.cfg.models
    ensures Guard(p, model, forwarded, now) == (p, Admitted)
  {
  }

  /** A pool that is stopped or faulted, or a request without its headers, in this order. */
  lemma GuardWhenClosed(p: Pool, model: string, forwarded: bool, now: Time)
    requires p.cfg.accounts != [] && model in p.cfg.models && (p.closed || p.fault != NoFault || !forwarded)
    ensures Guard(p, model, forwarded, now) ==
            (p, Rejected(if p.closed then PluginStopped else if p.fault != NoFault then Faulted(p.fault) else HeaderNotForwarded))
  {
  }

  /** Without a current account: admitted exactly when some account may be used. */
  lemma GuardWhenNoneIsCurrent(p: Pool, model: string, now: Time, t: Time)
    requires Consistent(p, t) && p.cfg.accounts != [] && model in p.cfg.models && !p.closed && p.fault == NoFault && p.mem.current == ""
    ensures Guard(p, model, true, now) == (p, if AnyFree(p.mem, p.cfg.accounts, now) then Admitted else Rejected(AllUnavailable))
  {
    AllRecorded(p, t);
    AnyFreeExactly(p.mem, p.cfg.accounts, now);
  }

  /** With a current account: admitted when it may be used, otherwise rejected with the reason, unless the
      in-line failover finds another. */
  lemma GuardWithCurrent(p: Pool, model: string, i: nat, v: Verdict, now: Time, t: Time)
    requires Consistent(p, t) && model in p.cfg.models && !p.closed && p.fault == NoFault
    requires i < |p.cfg.accounts| && p.cfg.accounts[i].fingerprint == p.mem.current
    ensures var a, (q, r) := p.cfg.accounts[i], Guard(p, model, true, now);
            && (IsFree(p.mem, a, now) ==> q == p && r == Admitted)
            && (IsHeld(p.mem, a, now, v) && v in {Disabled, Exhausted, RateLimited} ==> q == p && r == Rejected(CurrentBlocked(v)))
            && (IsHeld(p.mem, a, now, v) && v in {Suspended, Quarantined} ==>
                  && q == p.(mem := q.mem) && Selected(q.mem, p.mem, p.cfg.accounts, i, now)
                  && r == if AnyFree(p.mem, p.cfg.accounts, now) then Admitted else Rejected(CurrentBlocked(v)))
  {
    AllRecorded(p, t);
    HashNotEmpty(p.cfg.accounts, i);
    IndexOfUnique(p.cfg.accounts, i);
    VerdictExactly(p.mem, p.cfg.accounts[i], now);
    ChooseSelects(p.mem, p.cfg.accounts, p.mem.current, i, now);
    NextIsFirstFree(p.mem, p.cfg.accounts, p.mem.current, i, now);
  }
}

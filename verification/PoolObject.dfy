/** The pool object of src/pool.go, updated in place. Each method is one atomic step taken under
    the mutex, and is proved to do exactly what the value-level scheduler says. */
module PoolObject {
  import opened Basics
  import opened Failures
  import opened Classifier
  import opened Observations
  import opened Accounts
  import opened Durable
  import opened Scheduler
  import opened Reports
  import opened Invariants

  class LockedPool {
    var cfg: Configuration
    var current: string
    var cursor: string
    var keys: map<string, KeyState>
    var byAuthID: map<string, string>
    var store: Store?
    var fault: Fault
    var closed: bool

    /** The record objects in use, and their values. */
    ghost var repr: set<KeyState>
    ghost var records: map<string, KeyRecord>

    /** Keys do not share records, and every configured account has one. */
    ghost predicate Valid()
      reads this`cfg, this`keys, this`records, this`repr, repr
    {
      ValidKeys() && Covers(cfg.accounts)
    }

    ghost predicate ValidKeys()
      reads this`keys, this`records, this`repr, repr
    {
      && records.Keys == keys.Keys
      && (forall h :: h in keys ==> keys[h] in repr && records[h] == keys[h].Record())
      && (forall h, g :: h in keys && g in keys && h != g ==> keys[h] != keys[g])
    }

    ghost predicate Covers(accounts: seq<Account>)
      reads this`keys
    {
      forall i :: 0 <= i < |accounts| ==> accounts[i].fingerprint in keys
    }

    ghost function Memory(): Persisted
      reads this`current, this`cursor, this`records
    {
      Persisted(1, current, cursor, records)
    }

    ghost function View(): Pool
      reads this, store
    {
      Pool(cfg, Memory(), byAuthID, if store == null then NoStore else Attached(store.contents), fault, closed)
    }

    method SetCursor(hash: string)
      requires Valid()
      modifies this`cursor
      ensures Valid()
      ensures View() == old(View()).(mem := old(Memory()).(cursor := hash))
    {
      cursor := hash;
    }

    method ForgetCurrent()
      requires Valid()
      modifies this`current
      ensures Valid()
      ensures View() == old(View()).(mem := old(Memory()).(current := ""))
    {
      current := "";
    }

    /** The snapshot that is serialized: a copy that shares no record with the pool. */
    method Snapshot() returns (s: Persisted)
      requires Valid()
      ensures s == Memory()
    {
      s := Persisted(1, current, cursor, map h | h in keys :: keys[h].Record());
      assert s.keys == records;
    }

    /** `accountLocked`: the position of the account, or the number of accounts. */
    method AccountAt(hash: string) returns (i: nat)
      ensures i == IndexOf(cfg.accounts, hash) <= |cfg.accounts|
      ensures i < |cfg.accounts| ==> cfg.accounts[i].fingerprint == hash
    {
      IndexOfIsFirst(cfg.accounts, hash);
      i := 0;
      while i < |cfg.accounts| && cfg.accounts[i].fingerprint != hash
        invariant i <= |cfg.accounts|
        invariant IndexFrom(cfg.accounts, hash, 0) == IndexFrom(cfg.accounts, hash, i)
      {
        i := i + 1;
      }
    }

    function BlockedAt(a: Account, now: Time): (v: Verdict)
      requires Valid() && a.fingerprint in keys
      reads this`cfg, this`keys, this`records, this`repr, repr
      ensures v == Blocked(Memory(), a, now)
    {
      var k := keys[a.fingerprint];
      if a.disabled then Disabled
      else if now < k.exhaustedUntil then Exhausted
      else if now < k.suspendedUntil then Suspended
      else if now < k.rateLimitedUntil then RateLimited
      else if now < k.transientUntil then Quarantined
      else Eligible
    }

    method SaveState(f: SaveFault) returns (ok: bool)
      requires Valid()
      modifies this`fault, store
      ensures Valid()
      ensures View() == Scheduler.Save(old(View()), f).0
      ensures ok == Scheduler.Save(old(View()), f).1
      ensures ok <==> store != null && f == Flawless
    {
      if store == null {
        return false;
      }
      var snapshot := Snapshot();
      var saved, _ := store.Save(snapshot, f);
      if !saved {
        fault := StateWriteFailed;
        return false;
      }
      if fault == StateWriteFailed {
        fault := NoFault;
      }
      return true;
    }

    /** The first loop of `chooseLocked`. */
    method StartAfter(after: string) returns (start: nat)
      ensures start == Start(cfg.accounts, after)
    {
      start := 0;
      for i := 0 to |cfg.accounts|
        invariant IndexFrom(cfg.accounts, after, 0) == IndexFrom(cfg.accounts, after, i)
      {
        if cfg.accounts[i].fingerprint == after {
          start := Around(i, 1, |cfg.accounts|);
          return;
        }
      }
    }

    /** The second loop of `chooseLocked`. */
    method FindNext(start: nat, now: Time) returns (r: Option<nat>)
      requires Valid()
      requires cfg.accounts != [] ==> start < |cfg.accounts|
      ensures r == Search(Memory(), cfg.accounts, start, 0, now)
    {
      ghost var mem := Memory();
      for j := 0 to |cfg.accounts|
        invariant Search(mem, cfg.accounts, start, 0, now) == Search(mem, cfg.accounts, start, j, now)
      {
        var i := Around(start, j, |cfg.accounts|);
        var verdict := BlockedAt(cfg.accounts[i], now);
        if verdict == Eligible {
          return Some(i);
        }
      }
      return None;
    }

    method ChooseAfter(after: string, now: Time) returns (chosen: bool)
      requires Valid()
      modifies this`current, this`cursor
      ensures View() == old(View()).(mem := Scheduler.Choose(old(Memory()), cfg.accounts, after, now))
      ensures chosen <==> Next(old(Memory()), cfg.accounts, after, now).Some?
    {
      if |cfg.accounts| == 0 {
        return false;
      }
      var start := StartAfter(after);
      var found := FindNext(start, now);
      if found.Some? {
        current := cfg.accounts[found.value].fingerprint;
        cursor := cfg.accounts[found.value].fingerprint;
        return true;
      }
      current := "";
      return false;
    }

    /** `managedLocked`. */
    method IsManaged(req: Request) returns (managed: bool)
      ensures managed <==> Scheduler.Managed(View(), req)
    {
      if cfg.accounts == [] && fault == NoFault {
        return false;
      }
      if req.provider == cfg.provider {
        return true;
      }
      for i := 0 to |req.providers|
        invariant cfg.provider !in req.providers[..i]
      {
        if req.providers[i] == cfg.provider {
          return true;
        }
      }
      for i := 0 to |req.candidates|
        invariant forall c :: c in req.candidates[..i] ==> c.id !in byAuthID && c.provider != cfg.provider
      {
        var c := req.candidates[i];
        if c.id in byAuthID || c.provider == cfg.provider {
          assert c in req.candidates;
          return true;
        }
      }
      return false;
    }

    /** One round of the loop of `unavailableLocked`. */
    method CountAccount(r: Report, i: nat, now: Time) returns (r': Report)
      requires Valid() && i < |cfg.accounts|
      ensures r' == AddToReport(r, Memory(), cfg.accounts[i], now)
    {
      var a := cfg.accounts[i];
      r' := r;
      match BlockedAt(a, now) {
        case Eligible => r' := r'.(eligible := r.eligible + 1);
        case Exhausted => r' := r'.(exhausted := r.exhausted + 1);
        case Suspended => r' := r'.(suspended := r.suspended + 1);
        case _ => r' := r'.(unavailable := r.unavailable + 1);
      }
      var k := keys[a.fingerprint];
      var untils := [k.exhaustedUntil, k.suspendedUntil, k.rateLimitedUntil];
      for j := 0 to 3
        invariant r' == r'.(retryAt := r'.retryAt)
        invariant r'.(retryAt := r.retryAt) == AddToReport(r, Memory(), a, now).(retryAt := r.retryAt)
        invariant j == 0 ==> r'.retryAt == r.retryAt
        invariant j == 1 ==> r'.retryAt == Consider(r.retryAt, untils[0], now)
        invariant j == 2 ==> r'.retryAt == Consider(Consider(r.retryAt, untils[0], now), untils[1], now)
        invariant j == 3 ==> r'.retryAt == Consider(Consider(Consider(r.retryAt, untils[0], now), untils[1], now), untils[2], now)
      {
        var until := untils[j];
        if until > now && (r'.retryAt == 0 || until < r'.retryAt) {
          r' := r'.(retryAt := until);
        }
      }
    }

    /** `unavailableLocked`: the aggregate counts and the earliest known retry time. */
    method Summarize(reason: Reason, now: Time) returns (r: Report)
      requires Valid()
      ensures r == Unavailable(View(), reason, now)
    {
      r := Report(reason, 0, 0, 0, 0, 0);
      for i := 0 to |cfg.accounts|
        invariant r == ReportOver(reason, Memory(), cfg.accounts[..i], now)
      {
        r := CountAccount(r, i, now);
        assert cfg.accounts[..i + 1][..i] == cfg.accounts[..i];
      }
      assert cfg.accounts[..|cfg.accounts|] == cfg.accounts;
    }

    /** The scan of the host's candidates for the chosen account. */
    method OfferAccount(a: Account, req: Request) returns (r: PickResult)
      ensures r == Scheduler.Offer(a, req)
    {
      for i := 0 to |req.candidates|
        invariant !exists c :: c in req.candidates[..i] && c.id == a.authID && !c.disabled
      {
        var c := req.candidates[i];
        if c.id == a.authID && !c.disabled {
          assert c in req.candidates;
          return Handled(a.authID);
        }
      }
      assert req.candidates[..|req.candidates|] == req.candidates;
      return Refused(NotACandidate);
    }

    /** `Pick`. A refusal carries the report on the state that it leaves. */
    method Pick(req: Request, now: Time, f: SaveFault) returns (r: PickResult, report: Option<Report>)
      requires Valid()
      modifies this, store
      ensures Valid()
      ensures View() == Scheduler.Pick(old(View()), req, now, f).0
      ensures r == Scheduler.Pick(old(View()), req, now, f).1
      ensures report == if r.Refused? then Some(Unavailable(View(), r.reason, now)) else None
    {
      r := Select(req, now, f);
      report := None;
      if r.Refused? {
        var summary := Summarize(r.reason, now);
        report := Some(summary);
      }
    }

    method Select(req: Request, now: Time, f: SaveFault) returns (r: PickResult)
      requires Valid()
      modifies this`current, this`cursor, this`fault, store
      ensures Valid()
      ensures View() == Scheduler.Pick(old(View()), req, now, f).0
      ensures r == Scheduler.Pick(old(View()), req, now, f).1
    {
      var managed := IsManaged(req);
      if !managed {
        return Unmanaged;
      }
      if closed {
        return Refused(PluginStopped);
      }
      if fault != NoFault {
        return Refused(Faulted(fault));
      }
      var refusal := AcquireCurrent(now, f);
      if refusal.Some? {
        return Refused(refusal.value);
      }
      r := SelectCurrent(req, now);
    }

    /** Lines 237-244 of `Pick`. */
    method AcquireCurrent(now: Time, f: SaveFault) returns (refusal: Option<Reason>)
      requires Valid()
      modifies this`current, this`cursor, this`fault, store
      ensures Valid()
      ensures View() == Scheduler.Acquire(old(View()), now, f).0
      ensures refusal == Scheduler.Acquire(old(View()), now, f).1
    {
      refusal := None;
      if current == "" {
        refusal := SelectNext(now, f);
      }
    }

    /** The next eligible account becomes current, which is saved. */
    method SelectNext(now: Time, f: SaveFault) returns (refusal: Option<Reason>)
      requires Valid() && current == ""
      modifies this`current, this`cursor, this`fault, store
      ensures Valid()
      ensures var q := old(View()).(mem := Scheduler.Choose(old(Memory()), cfg.accounts, old(cursor), now));
              View() == if Next(old(Memory()), cfg.accounts, old(cursor), now).None? then q else Scheduler.Save(q, f).0
      ensures refusal == if Next(old(Memory()), cfg.accounts, old(cursor), now).None? then Some(AllUnavailable)
                         else if store != null && f == Flawless then None else Some(WriteFailed)
    {
      var chosen := ChooseAfter(cursor, now);
      if !chosen {
        return Some(AllUnavailable);
      }
      var saved := SaveState(f);
      return if saved then None else Some(WriteFailed);
    }

    /** Lines 245-270 of `Pick`: the account that is current, with the in-line failover. */
    method SelectCurrent(req: Request, now: Time) returns (r: PickResult)
      requires Valid()
      modifies this`current, this`cursor
      ensures Valid()
      ensures View() == Scheduler.PickCurrent(old(View()), req, now).0
      ensures r == Scheduler.PickCurrent(old(View()), req, now).1
    {
      var verdict := CurrentVerdict(now);
      if verdict == Suspended || verdict == Quarantined {
        verdict := FailOver(verdict, now);
      }
      ghost var q := View();
      r := SettleCurrent(verdict, req);
      assert View() == q;
    }

    /** `blockedLocked` of `accountLocked(current)`; a missing account counts as disabled. */
    method CurrentVerdict(now: Time) returns (v: Verdict)
      requires Valid()
      ensures v == BlockedHash(Memory(), cfg.accounts, current, now)
    {
      var i := AccountAt(current);
      v := if i == |cfg.accounts| then Disabled else BlockedAt(cfg.accounts[i], now);
    }

    /** The in-line failover of `Pick`: choose after the blocked current account and look again. */
    method FailOver(verdict: Verdict, now: Time) returns (verdict': Verdict)
      requires Valid()
      modifies this`current, this`cursor
      ensures Valid()
      ensures View() == old(View()).(mem := Scheduler.Choose(old(Memory()), cfg.accounts, old(current), now))
      ensures verdict' == Scheduler.AfterFailOver(old(View()), verdict, now)
    {
      verdict' := verdict;
      var chosen := ChooseAfter(current, now);
      if chosen {
        verdict' := CurrentVerdict(now);
      }
    }

    method SettleCurrent(verdict: Verdict, req: Request) returns (r: PickResult)
      requires Valid()
      ensures r == Scheduler.Settle(View(), verdict, req)
    {
      var i := AccountAt(current);
      if verdict != Eligible || i == |cfg.accounts| {
        return Refused(CurrentBlocked(verdict));
      }
      r := OfferAccount(cfg.accounts[i], req);
    }

    /** The instant that an outcome is dated to. */
    static method DateOutcome(rec: Usage, now: Time) returns (observed: Time)
      ensures observed == ObservedAt(rec, now)
    {
      observed := rec.requestedAt + rec.latency;
      if rec.requestedAt == 0 || rec.latency < 0 || observed > now {
        observed := now;
      }
    }

    /** The class of a failure that passes the barrier. No other record needs one. */
    static method ClassifyRecord(k: KeyState, cfg: Configuration, rec: Usage, now: Time) returns (c: Classification)
      ensures rec.failed && !Ignored(k.Record(), rec) ==> c == ClassOf(cfg, rec, now)
    {
      if !rec.failed || (k.ignoreBefore != 0 && (rec.requestedAt == 0 || rec.requestedAt < k.ignoreBefore)) {
        return NoClassification;
      }
      var observed := DateOutcome(rec, now);
      c := Classify(rec.response, observed, cfg.fallback);
    }

    /** One accepted record, of class `c`, updates the record of its key in place. The result says
        whether the key must be left if it is current. */
    static method CreditKey(k: KeyState, cfg: Configuration, rec: Usage, c: Classification, now: Time) returns (advance: bool)
      modifies k
      ensures k.Record() == Scheduler.Credit(old(k.Record()), cfg, rec, c, now)
      ensures advance <==> Scheduler.Advances(old(k.Record()), rec, c, now)
    {
      var observed := DateOutcome(rec, now);
      if !rec.failed {
        k.success := Bump(k.success);
        if observed > k.lastSuccessAt {
          k.lastSuccessAt := observed;
        }
        return false;
      }
      advance := CreditFailure(k, cfg, rec, c, observed, now);
    }

    static method CreditFailure(k: KeyState, cfg: Configuration, rec: Usage, c: Classification, observed: Time, now: Time) returns (advance: bool)
      requires rec.failed && observed == ObservedAt(rec, now)
      modifies k
      ensures k.Record() == Scheduler.Credit(old(k.Record()), cfg, rec, c, now)
      ensures advance <==> Scheduler.Advances(old(k.Record()), rec, c, now)
    {
      k.failed := Bump(k.failed);
      if k.ignoreBefore != 0 && (rec.requestedAt == 0 || rec.requestedAt < k.ignoreBefore) {
        return false;
      }
      if observed < k.lastFailureAt {
        return false;
      }
      advance := ApplyFailure(k, cfg, c, observed, now);
    }

    /** The switch over the kind of failure. */
    static method ApplyFailure(k: KeyState, cfg: Configuration, c: Classification, observed: Time, now: Time) returns (advance: bool)
      modifies k
      ensures k.Record() == Scheduler.Punish(old(k.Record()), cfg, c, observed, now)
      ensures advance <==> Scheduler.Leaves(c, now)
    {
      advance := false;
      k.lastFailure := c;
      k.lastFailureAt := observed;
      match c.kind {
        case Quota =>
          if c.until > now {
            k.exhaustedUntil := c.until;
            k.ignoreBefore := c.until;
            advance := true;
          }
        case Auth =>
          k.suspendedUntil := observed + cfg.authSuspension;
          advance := true;
        case RateLimit =>
          var until := c.until;
          if until == 0 {
            until := observed + cfg.rateFallback;
            k.lastFailure := c.(until := until, source := RateLimitFallback, fallback := NoValidRateReset);
          }
          if until > k.rateLimitedUntil {
            k.rateLimitedUntil := until;
          }
        case Transient =>
          k.transientUntil := observed + cfg.transientFallback;
          k.lastFailure := c.(until := k.transientUntil, source := TransientFallback, fallback := UpstreamFailure);
          advance := true;
        case _ =>
      }
    }

    method CreditRecord(hash: string, rec: Usage, c: Classification, now: Time) returns (advance: bool)
      requires Valid() && hash in keys
      modifies this`records, keys[hash]
      ensures Valid()
      ensures View() == old(View()).(mem := Credited(old(Memory()), cfg, hash, rec, c, now))
      ensures advance <==> Scheduler.Advances(old(records)[hash], rec, c, now)
    {
      advance := CreditKey(keys[hash], cfg, rec, c, now);
      records := records[hash := keys[hash].Record()];
    }

    method AbsorbRecord(hash: string, rec: Usage, c: Classification, now: Time)
      requires Valid() && hash in keys
      modifies this`current, this`cursor, this`records, keys[hash]
      ensures Valid()
      ensures View() == old(View()).(mem := Scheduler.Absorb(old(Memory()), cfg, hash, rec, c, now))
    {
      var advance := CreditRecord(hash, rec, c, now);
      if advance && current == hash {
        HandOver(hash, now);
      }
    }

    /** Leaving the current account after a failure. */
    method HandOver(hash: string, now: Time)
      requires Valid()
      modifies this`current, this`cursor
      ensures Valid()
      ensures View() == old(View()).(mem := Scheduler.Choose(old(Memory()).(cursor := hash), cfg.accounts, hash, now))
    {
      SetCursor(hash);
      var _ := ChooseAfter(hash, now);
    }

    method Observe(rec: Usage, now: Time, f: SaveFault) returns (ok: bool)
      requires Valid()
      modifies this, repr, store
      ensures Valid()
      ensures View() == Scheduler.Observe(old(View()), rec, ClassOf(old(cfg), rec, now), now, f).0
      ensures ok == Scheduler.Observe(old(View()), rec, ClassOf(old(cfg), rec, now), now, f).1
    {
      if closed {
        return true;
      }
      if store == null {
        return false;
      }
      if rec.authID !in byAuthID || rec.foreign || byAuthID[rec.authID] !in keys {
        return true;
      }
      var c := ClassifyRecord(keys[byAuthID[rec.authID]], cfg, rec, now);
      ClassOfFailuresMatters(View(), rec, c, ClassOf(cfg, rec, now), now, f);
      ok := ObserveClassified(rec, c, now, f);
    }

    /** The rest of `Observe`, with the class `c` of the failure. */
    method ObserveClassified(rec: Usage, c: Classification, now: Time, f: SaveFault) returns (ok: bool)
      requires Valid() && Accepted(View(), rec)
      modifies this, repr, store
      ensures Valid()
      ensures View() == Scheduler.Observe(old(View()), rec, c, now, f).0
      ensures ok == Scheduler.Observe(old(View()), rec, c, now, f).1
    {
      ok := AbsorbAndSave(byAuthID[rec.authID], rec, c, now, f);
    }

    method AbsorbAndSave(hash: string, rec: Usage, c: Classification, now: Time, f: SaveFault) returns (ok: bool)
      requires Valid() && hash in keys
      modifies this`current, this`cursor, this`records, this`fault, keys[hash], store
      ensures Valid()
      ensures View() == Scheduler.Save(old(View()).(mem := Scheduler.Absorb(old(Memory()), cfg, hash, rec, c, now)), f).0
      ensures ok <==> store != null && f == Flawless
    {
      AbsorbRecord(hash, rec, c, now);
      ok := SaveState(f);
    }

    method Guard(model: string, forwarded: bool, now: Time) returns (r: GuardResult, report: Option<Report>)
      requires Valid()
      modifies this`current, this`cursor
      ensures Valid()
      ensures View() == Scheduler.Guard(old(View()), model, forwarded, now).0
      ensures r == Scheduler.Guard(old(View()), model, forwarded, now).1
      ensures report == if r.Rejected? then Some(Unavailable(View(), r.reason, now)) else None
    {
      r := Admit(model, forwarded, now);
      report := None;
      if r.Rejected? {
        var summary := Summarize(r.reason, now);
        report := Some(summary);
      }
    }

    method Admit(model: string, forwarded: bool, now: Time) returns (r: GuardResult)
      requires Valid()
      modifies this`current, this`cursor
      ensures Valid()
      ensures View() == Scheduler.Guard(old(View()), model, forwarded, now).0
      ensures r == Scheduler.Guard(old(View()), model, forwarded, now).1
    {
      if cfg.accounts == [] || model !in cfg.models {
        return Admitted;
      }
      if closed {
        return Rejected(PluginStopped);
      }
      if fault != NoFault {
        return Rejected(Faulted(fault));
      }
      if !forwarded {
        return Rejected(HeaderNotForwarded);
      }
      if current != "" {
        r := AdmitCurrent(now);
      } else {
        r := AdmitAny(now);
      }
    }

    /** Lines 379-388 of `Guard`. */
    method AdmitCurrent(now: Time) returns (r: GuardResult)
      requires Valid()
      modifies this`current, this`cursor
      ensures Valid()
      ensures View() == Scheduler.GuardCurrent(old(View()), now).0
      ensures r == Scheduler.GuardCurrent(old(View()), now).1
    {
      var verdict := CurrentVerdict(now);
      if verdict == Eligible {
        return Admitted;
      }
      if verdict == Suspended || verdict == Quarantined {
        r := AdmitSuccessor(verdict, now);
        return;
      }
      return Rejected(CurrentBlocked(verdict));
    }

    /** The in-line failover of `Guard`. */
    method AdmitSuccessor(verdict: Verdict, now: Time) returns (r: GuardResult)
      requires Valid()
      modifies this`current, this`cursor
      ensures Valid()
      ensures View() == old(View()).(mem := Scheduler.Choose(old(Memory()), cfg.accounts, old(current), now))
      ensures r == if Next(old(Memory()), cfg.accounts, old(current), now).Some? then Admitted else Rejected(CurrentBlocked(verdict))
    {
      var chosen := ChooseAfter(current, now);
      r := if chosen then Admitted else Rejected(CurrentBlocked(verdict));
    }

    /** Lines 390-395 of `Guard`. */
    method AdmitAny(now: Time) returns (r: GuardResult)
      requires Valid()
      ensures r == if AnyEligible(Memory(), cfg.accounts, now) then Admitted else Rejected(AllUnavailable)
    {
      for i := 0 to |cfg.accounts|
        invariant forall j :: 0 <= j < i ==> !IsEligible(Memory(), cfg.accounts, j, now)
      {
        if BlockedAt(cfg.accounts[i], now) == Eligible {
          assert IsEligible(Memory(), cfg.accounts, i, now);
          return Admitted;
        }
      }
      return Rejected(AllUnavailable);
    }

    method Resume(name: string, confirm: string, now: Time, f: SaveFault) returns (ok: bool)
      requires Valid()
      modifies this, repr, store
      ensures Valid()
      ensures View() == Scheduler.Resume(old(View()), name, confirm, now, f).0
      ensures ok == Scheduler.Resume(old(View()), name, confirm, now, f).1
    {
      var i := FindResumed(name, confirm);
      if i == |cfg.accounts| {
        return false;
      }
      ok := ClearAndSave(cfg.accounts[i].fingerprint, now, f);
    }

    /** The account to resume, if the request is in order. */
    method FindResumed(name: string, confirm: string) returns (i: nat)
      ensures i == if Resumes(View(), name, confirm) then LabelIndex(cfg.accounts, name) else |cfg.accounts|
    {
      if confirm != CONFIRMATION || closed {
        return |cfg.accounts|;
      }
      i := FindLabel(name);
      if i < |cfg.accounts| && cfg.accounts[i].disabled {
        return |cfg.accounts|;
      }
    }

    method ClearAndSave(hash: string, now: Time, f: SaveFault) returns (ok: bool)
      requires Valid() && hash in keys
      modifies this`records, this`fault, keys[hash], store
      ensures Valid()
      ensures View() == Scheduler.Save(Forgiven(old(View()), hash, now), f).0
      ensures ok <==> store != null && f == Flawless
    {
      ClearKey(hash, now);
      ok := SaveState(f);
    }

    method FindLabel(name: string) returns (i: nat)
      ensures i == LabelIndex(cfg.accounts, name)
    {
      i := 0;
      while i < |cfg.accounts| && cfg.accounts[i].name != name
        invariant i <= |cfg.accounts|
        invariant LabelFrom(cfg.accounts, name, 0) == LabelFrom(cfg.accounts, name, i)
      {
        i := i + 1;
      }
    }

    method ClearKey(hash: string, now: Time)
      requires Valid() && hash in keys
      modifies this`records, keys[hash]
      ensures Valid()
      ensures View() == Forgiven(old(View()), hash, now)
    {
      ClearRecord(keys[hash], now);
      records := records[hash := keys[hash].Record()];
    }

    static method ClearRecord(k: KeyState, now: Time)
      modifies k
      ensures k.Record() == Cleared(old(k.Record()), now)
    {
      k.exhaustedUntil := 0;
      k.suspendedUntil := 0;
      k.rateLimitedUntil := 0;
      k.transientUntil := 0;
      k.ignoreBefore := now;
    }

    /** One round of the first loop of `installAccountsLocked`. */
    method EnterAccount(a: Account)
      requires ValidKeys()
      modifies this`keys, this`records, this`repr, this`byAuthID
      ensures ValidKeys() && a.fingerprint in keys
      ensures fresh(repr - old(repr))
      ensures records == if a.fingerprint in old(records) then old(records) else old(records)[a.fingerprint := FreshKey]
      ensures byAuthID == if a.authID != "" then old(byAuthID)[a.authID := a.fingerprint] else old(byAuthID)
    {
      if a.authID != "" {
        byAuthID := byAuthID[a.authID := a.fingerprint];
      }
      if a.fingerprint !in keys {
        AddKey(a.fingerprint, FreshKey);
      }
    }

    method AddKey(hash: string, r: KeyRecord)
      requires ValidKeys() && hash !in keys
      modifies this`keys, this`records, this`repr
      ensures ValidKeys()
      ensures fresh(repr - old(repr))
      ensures records == old(records)[hash := r]
    {
      var k := new KeyState(r);
      keys := keys[hash := k];
      records := records[hash := r];
      repr := repr + {k};
    }

    static lemma InstallStep(keys: map<string, KeyRecord>, index: map<string, string>, accounts: seq<Account>, i: nat)
      requires i < |accounts|
      ensures var before, a := WithKeys(keys, accounts[..i]), accounts[i];
              WithKeys(keys, accounts[..i + 1]) == if a.fingerprint in before then before else before[a.fingerprint := FreshKey]
      ensures var before, a := Enter(index, accounts[..i]), accounts[i];
              Enter(index, accounts[..i + 1]) == if a.authID != "" then before[a.authID := a.fingerprint] else before
    {
      assert accounts[..i + 1][..i] == accounts[..i];
    }

    method EnterAccounts(accounts: seq<Account>)
      requires ValidKeys()
      modifies this`keys, this`records, this`repr, this`byAuthID
      ensures ValidKeys() && Covers(accounts)
      ensures fresh(repr - old(repr))
      ensures records == WithKeys(old(records), accounts)
      ensures byAuthID == Enter(old(byAuthID), accounts)
    {
      for i := 0 to |accounts|
        invariant ValidKeys()
        invariant fresh(repr - old(repr))
        invariant records == WithKeys(old(records), accounts[..i])
        invariant byAuthID == Enter(old(byAuthID), accounts[..i])
      {
        EnterAccount(accounts[i]);
        InstallStep(old(records), old(byAuthID), accounts, i);
      }
      assert accounts[..|accounts|] == accounts;
      WithKeysValue(old(records), accounts);
    }

    /** The second loop of `installAccountsLocked`, over the map in any order. */
    method DropStale()
      modifies this`byAuthID
      ensures byAuthID == Retained(old(byAuthID), cfg.accounts)
    {
      ghost var all := byAuthID;
      var ids := byAuthID.Keys;
      while ids != {}
        invariant ids <= all.Keys
        invariant byAuthID == map id | id in all && (id in ids || all[id] in Fingerprints(cfg.accounts)) :: all[id]
        decreases |ids|
      {
        var id :| id in ids;
        ids := ids - {id};
        IndexOfIsFirst(cfg.accounts, byAuthID[id]);
        var i := AccountAt(byAuthID[id]);
        if i == |cfg.accounts| {
          byAuthID := byAuthID - {id};
        }
      }
    }

    method InstallAccounts(newCfg: Configuration)
      requires ValidKeys()
      modifies this`cfg, this`keys, this`records, this`repr, this`byAuthID
      ensures Valid()
      ensures fresh(repr - old(repr))
      ensures View() == Scheduler.Install(old(View()), newCfg)
    {
      cfg := newCfg;
      EnterAndDrop();
    }

    /** Both loops of `installAccountsLocked`: first the keys and their records, then the index. */
    method EnterAndDrop()
      requires ValidKeys()
      modifies this`keys, this`records, this`repr, this`byAuthID
      ensures ValidKeys() && Covers(cfg.accounts)
      ensures fresh(repr - old(repr))
      ensures records == WithKeys(old(records), cfg.accounts)
      ensures byAuthID == Index(old(byAuthID), cfg.accounts)
    {
      EnterAccounts(cfg.accounts);
      DropStale();
    }

    method Reconfigure(newCfg: Configuration, now: Time, f: SaveFault) returns (ok: bool)
      requires Valid()
      modifies this, repr, store
      ensures Valid() && fresh(repr - old(repr))
      ensures View() == Scheduler.Reconfigure(old(View()), newCfg, now, f).0
      ensures ok == Scheduler.Reconfigure(old(View()), newCfg, now, f).1
    {
      if store == null || newCfg.stateDir != cfg.stateDir {
        return false;
      }
      ReplaceConfiguration(newCfg, now);
      ok := SaveState(f);
    }

    method ReplaceConfiguration(newCfg: Configuration, now: Time)
      requires Valid()
      modifies this, repr
      ensures Valid() && fresh(repr - old(repr)) && store == old(store)
      ensures View() == Scheduler.Reconfigured(old(View()), newCfg, now)
    {
      InstallAccounts(newCfg);
      fault := NoFault;
      assert View() == Scheduler.Install(old(View()), newCfg).(fault := NoFault);
      Rehouse(now);
    }

    /** A missing or disabled current account is replaced after an explicit configuration change. */
    method Rehouse(now: Time)
      requires Valid()
      modifies this`current, this`cursor
      ensures Valid()
      ensures View() == Scheduler.Rehoused(old(View()), now)
    {
      var i := AccountAt(current);
      if i == |cfg.accounts| || cfg.accounts[i].disabled {
        Reselect(now);
      }
    }

    method Reselect(now: Time)
      requires Valid()
      modifies this`current, this`cursor
      ensures Valid()
      ensures View() == old(View()).(mem := Scheduler.Choose(old(Memory()).(current := ""), cfg.accounts, old(cursor), now))
    {
      ForgetCurrent();
      var _ := ChooseAfter(cursor, now);
    }

    method Close(f: SaveFault) returns (ok: bool)
      requires Valid()
      modifies this`closed, this`fault, store
      ensures Valid()
      ensures View() == Scheduler.Close(old(View()), f)
      ensures ok <==> old(closed) || store == null || f == Flawless
    {
      if closed {
        return true;
      }
      closed := true;
      if store == null {
        return true;
      }
      ok := SaveState(f);
    }

    /** A current account that is not configured is forgotten. */
    method ForgetMissing()
      requires Valid()
      modifies this`current
      ensures Valid()
      ensures View() == if old(current) != "" && IndexOf(cfg.accounts, old(current)) == |cfg.accounts|
                        then old(View()).(mem := old(Memory()).(current := "")) else old(View())
    {
      var i := AccountAt(current);
      if current != "" && i == |cfg.accounts| {
        ForgetCurrent();
      }
    }

    /** An empty pool, before its records and accounts are installed. */
    constructor (newCfg: Configuration, newStore: Store?, newFault: Fault)
      ensures ValidKeys() && repr == {} && records == map[]
      ensures cfg == newCfg && current == cursor == "" && byAuthID == map[]
      ensures store == newStore && fault == newFault && !closed
    {
      cfg, current, cursor := newCfg, "", "";
      keys, byAuthID, store, fault, closed := map[], map[], newStore, newFault, false;
      repr, records := {}, map[];
    }

    /** Fill a new pool with a loaded state and the configured accounts. */
    method Populate(loaded: Persisted)
      requires ValidKeys() && repr == {} && records == map[] && loaded.version == 1
      modifies this`current, this`cursor, this`cfg, this`keys, this`records, this`repr, this`byAuthID
      ensures Valid() && fresh(repr)
      ensures View() == Scheduler.Install(old(View()).(mem := loaded), cfg)
      ensures cfg == old(cfg)
    {
      TakeOver(loaded);
      InstallAccounts(cfg);
    }

    method TakeOver(loaded: Persisted)
      requires ValidKeys() && repr == {} && records == map[] && loaded.version == 1
      modifies this`current, this`cursor, this`keys, this`records, this`repr
      ensures ValidKeys() && fresh(repr)
      ensures View() == old(View()).(mem := loaded)
    {
      Adopt(loaded.keys);
      current, cursor := loaded.current, loaded.cursor;
    }

    /** The records that were read from the state file. */
    method Adopt(loaded: map<string, KeyRecord>)
      requires ValidKeys() && records == map[]
      modifies this`keys, this`records, this`repr
      ensures ValidKeys()
      ensures fresh(repr - old(repr))
      ensures records == loaded
    {
      var todo := loaded.Keys;
      while todo != {}
        invariant ValidKeys()
        invariant fresh(repr - old(repr))
        invariant todo <= loaded.Keys
        invariant records == map h | h in loaded.Keys - todo :: loaded[h]
        decreases |todo|
      {
        var h :| h in todo;
        todo := todo - {h};
        AddKey(h, loaded[h]);
      }
    }
  }

  /** Only failures that pass the barrier need a class. */
  lemma ClassOfFailuresMatters(p: Pool, rec: Usage, c: Classification, c': Classification, now: Time, f: SaveFault)
    requires Accepted(p, rec)
    requires rec.failed && !Ignored(p.mem.keys[p.byAuthID[rec.authID]], rec) ==> c == c'
    ensures Scheduler.Observe(p, rec, c, now, f) == Scheduler.Observe(p, rec, c', now, f)
  {
  }

  /** `newPool`: nothing when the state cannot be loaded; a current account that is no longer
      configured is forgotten, a disabled one is not. */
  method NewPool(cfg: Configuration, store: Store, readable: bool) returns (p: LockedPool?)
    ensures p == null <==> Load(store.contents, readable).None?
    ensures p != null ==> fresh(p) && p.Valid() && fresh(p.repr) && p.store == store
    ensures p != null ==> p.View() == Opened(cfg, Load(store.contents, readable).value, store.contents)
  {
    var loaded := store.Read(readable);
    assert loaded == Load(store.contents, readable);
    if loaded.None? {
      return null;
    }
    p := OpenPool(cfg, store, loaded.value);
  }

  method OpenPool(cfg: Configuration, store: Store, loaded: Persisted) returns (p: LockedPool)
    requires loaded.version == 1
    ensures fresh(p) && p.Valid() && fresh(p.repr) && p.store == store
    ensures p.View() == Opened(cfg, loaded, store.contents)
  {
    p := FillPool(cfg, store, loaded);
    p.ForgetMissing();
  }

  method FillPool(cfg: Configuration, store: Store, loaded: Persisted) returns (p: LockedPool)
    requires loaded.version == 1
    ensures fresh(p) && p.Valid() && fresh(p.repr) && p.store == store
    ensures p.View() == Scheduler.Install(Pool(cfg, loaded, map[], Attached(store.contents), NoFault, false), cfg)
  {
    p := new LockedPool(cfg, store, NoFault);
    p.Populate(loaded);
  }

  method NewFaultedPool(cfg: Configuration, fault: Fault) returns (p: LockedPool)
    ensures fresh(p) && p.Valid() && fresh(p.repr) && p.store == null
    ensures p.View() == FaultedPool(cfg, fault)
  {
    var named := if cfg.provider == "" then cfg.(provider := DEFAULT_PROVIDER) else cfg;
    p := new LockedPool(named, null, fault);
    p.Populate(EmptyState);
    assert p.View() == Scheduler.Install(Pool(named, EmptyState, map[], NoStore, fault, false), named);
  }
}

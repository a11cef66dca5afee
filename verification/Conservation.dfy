/** Every accepted usage record is counted once, on one key. */
module Conservation {
  import opened Basics
  import opened Failures
  import opened Accounts
  import opened Durable
  import opened Scheduler
  import opened Invariants
  import opened Traces
  import opened Blocks

  function Counted(k: KeyRecord): nat {
    k.success + k.failed
  }

  /** The sum of both counters over all keys. */
  ghost function Total(keys: map<string, KeyRecord>): nat
    decreases |keys|
  {
    if keys == map[] then 0
    else
      var h :| h in keys;
      Counted(keys[h]) + Total(keys - {h})
  }

  lemma {:induction false} TotalSplit(keys: map<string, KeyRecord>, h: string)
    requires h in keys
    ensures Total(keys) == Counted(keys[h]) + Total(keys - {h})
    decreases |keys|
  {
    var g :| g in keys && Total(keys) == Counted(keys[g]) + Total(keys - {g});
    if g != h {
      TotalSplit(keys - {g}, h);
      TotalSplit(keys - {h}, g);
      assert (keys - {g}) - {h} == (keys - {h}) - {g};
    }
  }

  lemma TotalUpdate(keys: map<string, KeyRecord>, h: string, r: KeyRecord)
    ensures Total(keys[h := r]) == Total(keys - {h}) + Counted(r)
  {
    var after := keys[h := r];
    TotalSplit(after, h);
    assert after - {h} == keys - {h};
  }

  lemma {:induction false} TotalWithKeys(keys: map<string, KeyRecord>, accounts: seq<Account>)
    ensures Total(WithKeys(keys, accounts)) == Total(keys)
  {
    if accounts != [] {
      var n := |accounts| - 1;
      var before, h := WithKeys(keys, accounts[..n]), accounts[n].fingerprint;
      TotalWithKeys(keys, accounts[..n]);
      if h !in before {
        TotalUpdate(before, h, FreshKey);
        assert before - {h} == before;
      }
    }
  }

  function Wraps(w: int): int {
    w * TWO64
  }

  /** Equal as sums of `uint64` counters, which wrap. */
  ghost predicate Congruent(a: int, b: int) {
    exists w :: a == b + Wraps(w)
  }

  lemma CongruentSum(a: int, b: int, x: int, c: int, y: int)
    requires Congruent(a, b + x) && Congruent(b, c + y)
    ensures Congruent(a, c + (y + x))
  {
    var v :| a == b + x + Wraps(v);
    var w :| b == c + y + Wraps(w);
    assert a == c + (y + x) + Wraps(v + w);
  }

  lemma CongruentEqual(a: int, b: int)
    requires a == b
    ensures Congruent(a, b)
  {
    assert a == b + Wraps(0);
  }

  lemma CreditCountsOnce(k: KeyRecord, cfg: Configuration, rec: Usage, c: Classification, now: Time)
    ensures var k' := Credit(k, cfg, rec, c, now);
            && k'.success == (if rec.failed then k.success else Bump(k.success))
            && k'.failed == (if rec.failed then Bump(k.failed) else k.failed)
            && Congruent(Counted(k'), Counted(k) + 1)
  {
    var k' := Credit(k, cfg, rec, c, now);
    assert Counted(k') == Counted(k) + 1 + Wraps(0) || Counted(k') == Counted(k) + 1 + Wraps(-1);
  }

  /** The step is an observation that passes the gates of `Observe`. */
  predicate Accepts(p: Pool, step: Step) {
    step.ObserveStep? && Accepted(p, step.rec)
  }

  lemma CreditedTotal(mem: Persisted, cfg: Configuration, hash: string, rec: Usage, c: Classification, now: Time)
    requires hash in mem.keys
    ensures Congruent(Total(Absorb(mem, cfg, hash, rec, c, now).keys), Total(mem.keys) + 1)
  {
    var r := Credit(mem.keys[hash], cfg, rec, c, now);
    ChooseKeys(Credited(mem, cfg, hash, rec, c, now).(cursor := hash), cfg.accounts, hash, now);
    TotalUpdate(mem.keys, hash, r);
    TotalSplit(mem.keys, hash);
    CreditCountsOnce(mem.keys[hash], cfg, rec, c, now);
    var w :| Counted(r) == Counted(mem.keys[hash]) + 1 + Wraps(w);
    assert Total(mem.keys[hash := r]) == Total(mem.keys) + 1 + Wraps(w);
  }

  lemma ClearedTotal(p: Pool, hash: string, now: Time)
    requires hash in p.mem.keys
    ensures Total(Forgiven(p, hash, now).mem.keys) == Total(p.mem.keys)
  {
    TotalUpdate(p.mem.keys, hash, Cleared(KeyOf(p.mem, hash), now));
    TotalSplit(p.mem.keys, hash);
  }

  lemma ReconfigureTotal(p: Pool, cfg: Configuration, now: Time, f: SaveFault)
    ensures Total(Reconfigure(p, cfg, now, f).0.mem.keys) == Total(p.mem.keys)
  {
    TotalWithKeys(p.mem.keys, cfg.accounts);
    ReconfigureMemory(p, cfg, now, f);
  }

  lemma ReconfigureMemory(p: Pool, cfg: Configuration, now: Time, f: SaveFault)
    ensures var keys := Reconfigure(p, cfg, now, f).0.mem.keys; keys == p.mem.keys || keys == WithKeys(p.mem.keys, cfg.accounts)
  {
  }

  lemma StepConserves(p: Pool, step: Step, t: Time)
    requires Invariant(p, t)
    ensures Congruent(Total(Apply(p, step).mem.keys), Total(p.mem.keys) + (if Accepts(p, step) then 1 else 0))
  {
    if Accepts(p, step) {
      CreditedTotal(p.mem, p.cfg, p.byAuthID[step.rec.authID], step.rec, step.class_, step.now);
    } else {
      OtherStepsKeepTotal(p, step, t);
      CongruentEqual(Total(Apply(p, step).mem.keys), Total(p.mem.keys));
    }
  }

  lemma OtherStepsKeepTotal(p: Pool, step: Step, t: Time)
    requires Invariant(p, t) && !Accepts(p, step)
    ensures Total(Apply(p, step).mem.keys) == Total(p.mem.keys)
  {
    match step
    case PickStep(req, now, f) => PickKeys(p, req, now, f);
    case ObserveStep(rec, c, now, f) =>
    case GuardStep(model, forwarded, now) => ChooseKeys(p.mem, p.cfg.accounts, p.mem.current, now);
    case ResumeStep(name, confirm, now, f) =>
      if Resumes(p, name, confirm) {
        var i := LabelIndex(p.cfg.accounts, name);
        FingerprintAt(p.cfg.accounts, i);
        ClearedTotal(p, p.cfg.accounts[i].fingerprint, now);
      }
    case ReconfigureStep(cfg, now, f) => ReconfigureTotal(p, cfg, now, f);
    case CloseStep(now, f) =>
    case FaultStep(fault, now) =>
  }

  /** How many of the first `k` steps of a trace are accepted observations. */
  ghost function AcceptedCount(states: seq<Pool>, steps: seq<Step>, k: nat): nat
    requires |states| > |steps| >= k
  {
    if k == 0 then 0 else AcceptedCount(states, steps, k - 1) + (if Accepts(states[k - 1], steps[k - 1]) then 1 else 0)
  }

  lemma TraceStepConserves(states: seq<Pool>, steps: seq<Step>, t: Time, k: nat)
    requires IsTrace(states, steps) && Timed(steps, t) && AllProper(steps) && Invariant(states[0], t) && k < |steps|
    ensures Congruent(Total(states[k + 1].mem.keys), Total(states[k].mem.keys) + (if Accepts(states[k], steps[k]) then 1 else 0))
  {
    TraceKeeps(states, steps, t, k);
    StepConserves(states[k], steps[k], TimeAt(steps, k, t));
  }

  /** Over any run, with resumes and with keys removed and added again, the sum of all counters
      grows by the number of accepted records, modulo the width of the counters. */
  lemma {:induction false} RecordsAreConserved(states: seq<Pool>, steps: seq<Step>, t: Time, k: nat)
    requires IsTrace(states, steps) && Timed(steps, t) && AllProper(steps) && Invariant(states[0], t) && k <= |steps|
    ensures Congruent(Total(states[k].mem.keys), Total(states[0].mem.keys) + AcceptedCount(states, steps, k))
    decreases k
  {
    if k == 0 {
      CongruentEqual(Total(states[0].mem.keys), Total(states[0].mem.keys) + 0);
    } else {
      RecordsAreConserved(states, steps, t, k - 1);
      TraceStepConserves(states, steps, t, k - 1);
      CongruentSum(Total(states[k].mem.keys), Total(states[k - 1].mem.keys), if Accepts(states[k - 1], steps[k - 1]) then 1 else 0,
                   Total(states[0].mem.keys), AcceptedCount(states, steps, k - 1));
    }
  }

  /** ... and each record is counted on the one key that its auth ID indexes. */
  lemma CountedOnOneKey(p: Pool, step: Step, h: string)
    ensures var k, k' := KeyOf(p.mem, h), KeyOf(Apply(p, step).mem, h);
            if Accepts(p, step) && p.byAuthID[step.rec.authID] == h then Congruent(Counted(k'), Counted(k) + 1)
            else Counted(k') == Counted(k)
  {
    KeyFrame(p, step, h);
    if CreditsKey(p, step, h) {
      CreditCountsOnce(KeyOf(p.mem, h), p.cfg, step.rec, step.class_, step.now);
    }
  }
}

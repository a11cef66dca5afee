/** What a failure blocks and for how long: every block is over after 366 days, and then the pool serves
    again. */
module Recovery {
  import opened Basics
  import opened Failures
  import opened Accounts
  import opened Durable
  import opened Scheduler
  import opened Invariants
  import opened Rotation
  import opened Traces
  import opened Blocks

  // ---------------------------------------------------------------- what a failure does

  /** The end of the block that a believed failure stands for. */
  function BlockEnd(cfg: Configuration, c: Classification, observed: Time): Time {
    match c.kind
    case Quota => c.until
    case Auth => observed + cfg.authSuspension
    case RateLimit => if c.until != 0 then c.until else observed + cfg.rateFallback
    case Transient => observed + cfg.transientFallback
    case _ => 0
  }

  /** A believed failure blocks its account exactly as long as its class says: once all earlier blocks
      of an enabled account are over, it is eligible if and only if this one is over too. */
  lemma FailureBlocksExactly(p: Pool, rec: Usage, c: Classification, now: Time, f: SaveFault, i: nat, later: Time)
    requires Accepted(p, rec) && i < |p.cfg.accounts| && !p.cfg.accounts[i].disabled
    requires p.cfg.accounts[i].fingerprint == p.byAuthID[rec.authID]
    requires var k := KeyOf(p.mem, p.byAuthID[rec.authID]); Effective(k, rec, now) && OverBy(k, later)
    requires 0 <= now <= later
    ensures IsEligible(Observe(p, rec, c, now, f).0.mem, p.cfg.accounts, i, later) <==>
            BlockEnd(p.cfg, c, ObservedAt(rec, now)) <= later
  {
    ObserveKeys(p, rec, c, now, f);
  }

  // ---------------------------------------------------------------- bounded recovery

  ghost predicate AllOverBy(p: Pool, b: Time) {
    forall h :: OverBy(KeyOf(p.mem, h), b)
  }

  /** Every block that a step writes is over at most 366 days after the step. */
  lemma BlocksAreBounded(p: Pool, step: Step, h: string, b: Time)
    requires OverBy(KeyOf(p.mem, h), b) && 0 <= b && step.now + LONGEST <= b
    requires GoodConfiguration(p.cfg) && Proper(step)
    ensures OverBy(KeyOf(Apply(p, step).mem, h), b)
  {
    KeyFrame(p, step, h);
    if step.ObserveStep? {
      CreditIsBounded(KeyOf(p.mem, h), p.cfg, step.rec, step.class_, step.now, b);
    }
  }

  /** A step that observes no failure writes no block at all. */
  lemma NoFailureNoBlock(p: Pool, step: Step, h: string, b: Time)
    requires OverBy(KeyOf(p.mem, h), b) && 0 <= b
    requires step.ObserveStep? ==> !step.rec.failed
    ensures OverBy(KeyOf(Apply(p, step).mem, h), b)
  {
    KeyFrame(p, step, h);
  }

  /** At every point of a run all blocks are over 366 days later. */
  lemma StartsOver(p: Pool, t: Time, b: Time)
    requires Invariant(p, t) && t + LONGEST <= b
    ensures AllOverBy(p, b)
  {
  }

  /** All blocks of a run are over 366 days after the last step at which a failure was observed. */
  lemma {:induction false} BlocksAreOver(states: seq<Pool>, steps: seq<Step>, t: Time, last: Time, h: string, k: nat)
    requires IsTrace(states, steps) && Timed(steps, t) && AllProper(steps) && Invariant(states[0], t)
    requires k <= |steps| && t <= last
    requires forall i :: 0 <= i < |steps| && steps[i].ObserveStep? && steps[i].rec.failed ==> steps[i].now <= last
    ensures OverBy(KeyOf(states[k].mem, h), last + LONGEST)
    decreases k
  {
    if k == 0 {
      StartsOver(states[0], t, last + LONGEST);
    } else {
      BlocksAreOver(states, steps, t, last, h, k - 1);
      TraceKeeps(states, steps, t, k - 1);
      var s := steps[k - 1];
      if s.ObserveStep? && s.rec.failed {
        BlocksAreBounded(states[k - 1], s, h, last + LONGEST);
      } else {
        NoFailureNoBlock(states[k - 1], s, h, last + LONGEST);
      }
    }
  }

  /** Every enabled account is offered by the host. */
  ghost predicate ListsAll(req: Request, accounts: seq<Account>) {
    forall i :: 0 <= i < |accounts| && !accounts[i].disabled ==> Listed(req, accounts[i].authID)
  }

  lemma OverMeansEligible(p: Pool, b: Time, now: Time, i: nat)
    requires AllOverBy(p, b) && b <= now && i < |p.cfg.accounts| && !p.cfg.accounts[i].disabled
    ensures IsEligible(p.mem, p.cfg.accounts, i, now)
  {
  }

  /** With an enabled account that is listed, the request is managed. */
  lemma ListedIsManaged(p: Pool, req: Request, i: nat)
    requires GoodIndex(p.byAuthID, p.cfg.accounts) && GoodAccounts(p.cfg.accounts)
    requires i < |p.cfg.accounts| && !p.cfg.accounts[i].disabled && Listed(req, p.cfg.accounts[i].authID)
    ensures Managed(p, req)
  {
  }

  /** When every enabled account is eligible, an open pool serves a request that lists them all. */
  lemma AllEligibleServes(p: Pool, req: Request, now: Time, i: nat)
    requires Invariant(p, now) && p.fault == NoFault && !p.closed && CurrentEnabled(p)
    requires forall j :: 0 <= j < |p.cfg.accounts| && !p.cfg.accounts[j].disabled ==> IsEligible(p.mem, p.cfg.accounts, j, now)
    requires i < |p.cfg.accounts| && !p.cfg.accounts[i].disabled && ListsAll(req, p.cfg.accounts)
    ensures Pick(p, req, now, Flawless).1.Handled?
  {
    ListedIsManaged(p, req, i);
    NextIsFirstEligible(p.mem, p.cfg.accounts, p.mem.cursor, now);
    assert IsEligible(p.mem, p.cfg.accounts, i, now);
    AcquireKeeps(p, now, Flawless);
    AcquireStaysEnabled(p, now, Flawless);
    var q := Acquire(p, now, Flawless).0;
    PickCurrentChangesNothing(q, req, now, now);
    IndexOfIsFirst(q.cfg.accounts, q.mem.current);
    var at := IndexOf(q.cfg.accounts, q.mem.current);
    AcquireSameKeys(p, now, Flawless);
    assert IsEligible(p.mem, p.cfg.accounts, at, now);
  }

  lemma AcquireSameKeys(p: Pool, now: Time, f: SaveFault)
    ensures Acquire(p, now, f).0.mem.keys == p.mem.keys && Acquire(p, now, f).0.cfg == p.cfg
  {
  }

  /** ... in particular when all blocks are over. */
  lemma AllOverServes(p: Pool, b: Time, req: Request, now: Time, i: nat)
    requires Invariant(p, now) && p.fault == NoFault && !p.closed && CurrentEnabled(p)
    requires AllOverBy(p, b) && b <= now
    requires i < |p.cfg.accounts| && !p.cfg.accounts[i].disabled && ListsAll(req, p.cfg.accounts)
    ensures forall j :: 0 <= j < |p.cfg.accounts| && !p.cfg.accounts[j].disabled ==> IsEligible(p.mem, p.cfg.accounts, j, now)
    ensures Pick(p, req, now, Flawless).1.Handled?
  {
    forall j | 0 <= j < |p.cfg.accounts| && !p.cfg.accounts[j].disabled
      ensures IsEligible(p.mem, p.cfg.accounts, j, now)
    {
      OverMeansEligible(p, b, now, j);
    }
    AllEligibleServes(p, req, now, i);
  }

  /** Bounded recovery: if no failure has been observed for 366 days, every enabled account is
      eligible, and a pool that is open and has no disabled account as current serves every request
      that lists its accounts. */
  lemma PoolRecovers(states: seq<Pool>, steps: seq<Step>, t: Time, last: Time, now: Time, req: Request, i: nat)
    requires IsTrace(states, steps) && Timed(steps, t) && AllProper(steps) && Invariant(states[0], t) && t <= last
    requires forall j :: 0 <= j < |steps| && steps[j].ObserveStep? && steps[j].rec.failed ==> steps[j].now <= last
    requires now >= last + LONGEST && now >= TimeAt(steps, |steps|, t)
    requires var q := states[|steps|]; q.fault == NoFault && !q.closed && CurrentEnabled(q)
    requires var q := states[|steps|]; i < |q.cfg.accounts| && !q.cfg.accounts[i].disabled && ListsAll(req, q.cfg.accounts)
    ensures var q := states[|steps|];
            && (forall j :: 0 <= j < |q.cfg.accounts| && !q.cfg.accounts[j].disabled ==> IsEligible(q.mem, q.cfg.accounts, j, now))
            && Pick(q, req, now, Flawless).1.Handled?
  {
    var q := states[|steps|];
    forall h
      ensures OverBy(KeyOf(q.mem, h), last + LONGEST)
    {
      BlocksAreOver(states, steps, t, last, h, |steps|);
    }
    TraceKeeps(states, steps, t, |steps|);
    InvariantLater(q, TimeAt(steps, |steps|, t), now);
    AllOverServes(q, last + LONGEST, req, now, i);
  }
}

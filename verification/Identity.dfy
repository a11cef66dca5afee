/** Which key an outcome is credited to, across reconfigurations. */
module Identity {
  import opened Basics
  import opened Failures
  import opened Accounts
  import opened Durable
  import opened Scheduler
  import opened Invariants
  import opened Traces
  import opened Durability

  /** The configuration keeps the key and gives the ID to no other key. */
  ghost predicate KeepsID(accounts: seq<Account>, id: string, h: string) {
    h in Fingerprints(accounts) && forall a :: a in accounts && a.authID == id ==> a.fingerprint == h
  }

  lemma {:induction false} EnterKeeps(index: map<string, string>, accounts: seq<Account>, id: string, h: string)
    requires id in index && index[id] == h
    requires forall a :: a in accounts && a.authID == id ==> a.fingerprint == h
    ensures id in Enter(index, accounts) && Enter(index, accounts)[id] == h
  {
    if accounts != [] {
      EnterKeeps(index, accounts[..|accounts| - 1], id, h);
    }
  }

  lemma StepKeepsID(p: Pool, step: Step, id: string, h: string)
    requires id in p.byAuthID && p.byAuthID[id] == h
    requires step.ReconfigureStep? ==> KeepsID(step.cfg.accounts, id, h)
    ensures id in Apply(p, step).byAuthID && Apply(p, step).byAuthID[id] == h
  {
    if step.ReconfigureStep? {
      EnterKeeps(p.byAuthID, step.cfg.accounts, id, h);
      ReconfigureIndex(p, step.cfg, step.now, step.save);
    } else {
      IndexFrame(p, step);
    }
  }

  lemma IndexFrame(p: Pool, step: Step)
    requires !step.ReconfigureStep?
    ensures Apply(p, step).byAuthID == p.byAuthID
  {
  }

  lemma ReconfigureIndex(p: Pool, cfg: Configuration, now: Time, f: SaveFault)
    ensures var q := Reconfigure(p, cfg, now, f).0; q.byAuthID == p.byAuthID || q.byAuthID == Index(p.byAuthID, cfg.accounts)
  {
  }

  /** Every reconfiguration of the run does. */
  ghost predicate AllKeepID(steps: seq<Step>, id: string, h: string) {
    forall i :: 0 <= i < |steps| && steps[i].ReconfigureStep? ==> KeepsID(steps[i].cfg.accounts, id, h)
  }

  lemma {:induction false} TraceKeepsID(states: seq<Pool>, steps: seq<Step>, id: string, h: string, k: nat)
    requires IsTrace(states, steps) && k <= |steps| && AllKeepID(steps, id, h)
    requires id in states[0].byAuthID && states[0].byAuthID[id] == h
    ensures id in states[k].byAuthID && states[k].byAuthID[id] == h
    decreases k
  {
    if k > 0 {
      TraceKeepsID(states, steps, id, h, k - 1);
      StepKeepsID(states[k - 1], steps[k - 1], id, h);
    }
  }

  /** The ID that `Pick` returns indexes the account that it chose. */
  lemma PickedIDIndexesCurrent(p: Pool, req: Request, now: Time, f: SaveFault)
    requires Invariant(p, now) && Pick(p, req, now, f).1.Handled?
    ensures var (q, r) := Pick(p, req, now, f);
            r.authID in q.byAuthID && q.byAuthID[r.authID] == q.mem.current
  {
    PickKeeps(p, req, now, f);
    HandedOutIsCurrent(p, req, now, f);
  }

  /** An accepted record is credited to the key that its ID indexes, and to no other. */
  lemma CreditsOnly(q: Pool, rec: Usage, h: string, c: Classification, now: Time, f: SaveFault)
    requires Accepted(q, rec) && q.byAuthID[rec.authID] == h
    ensures KeyOf(Observe(q, rec, c, now, f).0.mem, h) == Credit(KeyOf(q.mem, h), q.cfg, rec, c, now)
    ensures forall other :: other != h ==> KeyOf(Observe(q, rec, c, now, f).0.mem, other) == KeyOf(q.mem, other)
  {
  }

  /** A record for an ID that indexes a key is credited to that key and to no other, however late it
      arrives, through any reconfigurations that keep the key and do not issue its ID to another. */
  lemma LateOutcomeIsCredited(states: seq<Pool>, steps: seq<Step>, t: Time, h: string, rec: Usage, c: Classification, now: Time, f: SaveFault)
    requires IsTrace(states, steps) && Timed(steps, t) && AllProper(steps) && Invariant(states[0], t)
    requires rec.authID in states[0].byAuthID && states[0].byAuthID[rec.authID] == h && AllKeepID(steps, rec.authID, h)
    requires var q := states[|steps|]; !q.closed && q.store.Attached? && !rec.foreign
    ensures var q := states[|steps|];
            && Accepted(q, rec)
            && KeyOf(Observe(q, rec, c, now, f).0.mem, h) == Credit(KeyOf(q.mem, h), q.cfg, rec, c, now)
            && forall other :: other != h ==> KeyOf(Observe(q, rec, c, now, f).0.mem, other) == KeyOf(q.mem, other)
  {
    TraceKeeps(states, steps, t, |steps|);
    TraceKeepsID(states, steps, rec.authID, h, |steps|);
    CreditsOnly(states[|steps|], rec, h, c, now, f);
  }

  /** The outcome of a picked request is credited to the key that was picked. */
  lemma OutcomeIsCreditedToPickedKey(p: Pool, req: Request, now: Time, f: SaveFault, states: seq<Pool>, steps: seq<Step>,
                                     rec: Usage, c: Classification, later: Time, g: SaveFault)
    requires IsTrace(states, steps) && Timed(steps, now) && AllProper(steps)
    requires Invariant(p, now) && Pick(p, req, now, f) == (states[0], Handled(rec.authID))
    requires AllKeepID(steps, rec.authID, states[0].mem.current)
    requires var q := states[|steps|]; !q.closed && q.store.Attached? && !rec.foreign
    ensures var q, h := states[|steps|], states[0].mem.current;
            && Accepted(q, rec)
            && KeyOf(Observe(q, rec, c, later, g).0.mem, h) == Credit(KeyOf(q.mem, h), q.cfg, rec, c, later)
            && forall other :: other != h ==> KeyOf(Observe(q, rec, c, later, g).0.mem, other) == KeyOf(q.mem, other)
  {
    PickedIDIndexesCurrent(p, req, now, f);
    PickKeeps(p, req, now, f);
    LateOutcomeIsCredited(states, steps, now, states[0].mem.current, rec, c, later, g);
  }
}

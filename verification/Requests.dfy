/** What each event of a host does to its pool and to its state directories, in the fields of the request and
    of the old pool. */
module Requests {
  import opened Basics
  import opened Durable
  import opened Scheduler
  import opened Decisions
  import opened Effects
  import opened Faults
  import opened Lifecycle
  import opened Histories

  /** The pool refuses every request that concerns it, and does nothing. */
  ghost predicate RefusesAll(p: Pool) {
    forall req, now, f :: Concerns(p, req) ==> Pick(p, req, now, f).0 == p && Pick(p, req, now, f).1.Refused?
  }

  lemma FaultedRefusesAll(p: Pool)
    requires p.fault != NoFault
    ensures RefusesAll(p)
  {
    forall req, now, f | Concerns(p, req)
      ensures Pick(p, req, now, f).0 == p && Pick(p, req, now, f).1.Refused?
    {
      PickWhenClosed(p, req, now, f);
    }
  }

  /** A request that does not parse, or names another schema, changes nothing. */
  lemma InvalidRequest(w: World, r: ConfigureRequest, lockable: bool)
    requires !r.valid
    ensures Happens(w, Configured(r, lockable)) == w
  {
  }

  /** After a request whose configuration cannot be read there is a pool, with that fault: the old one as it was,
      or a new one without a store. It refuses all that concerns it. */
  lemma BadRequest(w: World, r: ConfigureRequest, lockable: bool)
    requires r.valid && !r.good
    ensures var w' := Happens(w, Configured(r, lockable));
            && w'.disks == w.disks && w'.pool.Some? && w'.pool.value.fault == ConfigurationError && RefusesAll(w'.pool.value)
            && (w.pool.Some? ==> w'.pool.value == w.pool.value.(fault := ConfigurationError))
            && (w.pool.None? ==>
                  && w'.pool.value.store.NoStore? && !w'.pool.value.closed && w'.pool.value.cfg.accounts == r.cfg.accounts
                  && w'.pool.value.cfg.provider == if r.cfg.provider == "" then "openai-compatible-opencode-zen" else r.cfg.provider)
  {
    FaultedExactly(r.cfg, ConfigurationError);
    FaultedRefusesAll(Happens(w, Configured(r, lockable)).pool.value);
  }

  /** A good request to a live pool opens it to traffic exactly when the pool has a store, the state directory is
      the same, and the save succeeds. A request that is turned down leaves all but the fault. */
  lemma GoodRequestToPool(w: World, r: ConfigureRequest, lockable: bool)
    requires r.valid && r.good && w.pool.Some?
    ensures var p, w' := w.pool.value, Happens(w, Configured(r, lockable));
            && w'.disks == w.disks && w'.pool.Some?
            && (w'.pool.value.fault == NoFault <==> p.store.Attached? && r.cfg.stateDir == p.cfg.stateDir && r.save == Flawless)
            && (w'.pool.value.fault != NoFault ==> w'.pool.value.fault == RestartRequired && RefusesAll(w'.pool.value))
            && (p.store.NoStore? || r.cfg.stateDir != p.cfg.stateDir ==> w'.pool.value == p.(fault := RestartRequired))
            && (p.store.Attached? && r.cfg.stateDir == p.cfg.stateDir ==> w'.pool.value.cfg == r.cfg)
  {
    var q := Happens(w, Configured(r, lockable)).pool.value;
    if q.fault != NoFault {
      FaultedRefusesAll(q);
    }
  }

  /** What is in a state directory before a pool is created on it. */
  ghost predicate Finds(w: World, dir: string, c: Contents) {
    if dir in w.disks then c == w.disks[dir] else c == Missing
  }

  /** A good request without a pool creates one. It is open to traffic exactly when the directory could be locked
      and its file loads; then it works on that file. Otherwise it has no store. */
  lemma GoodRequestCreates(w: World, r: ConfigureRequest, lockable: bool, c: Contents)
    requires r.valid && r.good && w.pool.None? && Finds(w, r.cfg.stateDir, c)
    ensures var w' := Happens(w, Configured(r, lockable));
            && w'.disks == w.disks && w'.pool.Some? && !w'.pool.value.closed
            && (w'.pool.value.fault == NoFault <==> lockable && Load(c, r.readable).Some?)
            && (w'.pool.value.fault == NoFault ==> w'.pool.value.store == Attached(c) && w'.pool.value.cfg == r.cfg)
            && (w'.pool.value.fault != NoFault ==>
                  w'.pool.value.fault == StateUnavailable && w'.pool.value.store.NoStore? && RefusesAll(w'.pool.value))
  {
    FaultedExactly(r.cfg, StateUnavailable);
    var q := Happens(w, Configured(r, lockable)).pool.value;
    if q.fault != NoFault {
      FaultedRefusesAll(q);
    }
  }

  /** A call changes the live pool only, and no state directory that it does not hold. */
  lemma CallExactly(w: World, step: Step)
    ensures Happens(w, Called(step)).disks == w.disks
    ensures w.pool.None? ==> Happens(w, Called(step)) == w
    ensures w.pool.Some? ==> Happens(w, Called(step)).pool == Some(Apply(w.pool.value, step))
  {
  }

  /** When the pool goes away, its directory keeps its file; a shutdown saves first, a crash does not. */
  lemma EndExactly(w: World, f: SaveFault, now: Time)
    requires w.pool.Some? && w.pool.value.store.Attached?
    ensures var p, w' := w.pool.value, Happens(w, ShutDown(f, now));
            && w'.pool.None? && w'.disks.Keys == w.disks.Keys + {p.cfg.stateDir}
            && (forall dir :: dir in w.disks && dir != p.cfg.stateDir ==> w'.disks[dir] == w.disks[dir])
            && (p.closed ==> w'.disks[p.cfg.stateDir] == p.store.contents)
            && (!p.closed && f in {Flawless, OpenDirectory, SyncDirectory} ==> w'.disks[p.cfg.stateDir] == Written(p.mem))
            && (!p.closed && f !in {Flawless, OpenDirectory, SyncDirectory} ==> w'.disks[p.cfg.stateDir] == p.store.contents)
    ensures var p, w' := w.pool.value, Happens(w, Crashed(now));
            w'.pool.None? && w'.disks == w.disks[p.cfg.stateDir := p.store.contents]
  {
  }

  // ---------------------------------------------------------------- how long a fault holds

  /** There is a pool, and it has a fault. */
  predicate IsShut(w: World) {
    w.pool.Some? && w.pool.value.fault != NoFault
  }

  /** The event opens a faulted pool, or takes it away: a flawless save after a failed one, a good request that goes
      through, or the end of the pool. */
  ghost predicate Reopens(w: World, e: Event) {
    && w.pool.Some?
    && var p := w.pool.value;
    match e
    case Called(step) => SavesFlawlessly(p, step) && p.fault == StateWriteFailed
    case Configured(r, _) => r.valid && r.good && p.store.Attached? && r.cfg.stateDir == p.cfg.stateDir && r.save == Flawless
    case _ => true
  }

  lemma ShutExactly(w: World, e: Event)
    requires IsShut(w) && ProperEvent(e)
    ensures IsShut(Happens(w, e)) <==> !Reopens(w, e)
  {
    match e
    case Called(step) => LiftStep(w.pool.value, step);
    case Configured(r, lockable) =>
      if r.valid && r.good {
        GoodRequestToPool(w, r, lockable);
      }
    case _ =>
  }

  ghost predicate AlwaysShut(worlds: seq<World>, k: nat)
    requires k < |worlds|
  {
    forall j :: 0 <= j <= k ==> IsShut(worlds[j])
  }

  ghost predicate NeverReopened(worlds: seq<World>, events: seq<Event>, k: nat)
    requires k <= |events| < |worlds|
  {
    forall j :: 0 <= j < k ==> !Reopens(worlds[j], events[j])
  }

  lemma OneWorldMore(worlds: seq<World>, events: seq<Event>, k: nat)
    requires k < |events| < |worlds|
    ensures AlwaysShut(worlds, k + 1) <==> AlwaysShut(worlds, k) && IsShut(worlds[k + 1])
    ensures NeverReopened(worlds, events, k + 1) <==> NeverReopened(worlds, events, k) && !Reopens(worlds[k], events[k])
  {
  }

  /** Over any history: a pool with a fault, such as that of a bad configuration, refuses all that concerns it
      exactly until one of those events. */
  lemma {:induction false} ShutUntilReopened(worlds: seq<World>, events: seq<Event>, k: nat)
    requires IsHistory(worlds, events) && AllProperEvents(events) && k <= |events| && IsShut(worlds[0])
    ensures AlwaysShut(worlds, k) <==> NeverReopened(worlds, events, k)
    decreases k
  {
    if k > 0 {
      ShutUntilReopened(worlds, events, k - 1);
      OneWorldMore(worlds, events, k - 1);
      if IsShut(worlds[k - 1]) {
        ShutExactly(worlds[k - 1], events[k - 1]);
      }
    }
  }

  lemma ShutRefusesAll(w: World)
    requires IsShut(w)
    ensures RefusesAll(w.pool.value)
  {
    FaultedRefusesAll(w.pool.value);
  }
}

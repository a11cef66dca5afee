/** The plugin lifecycle of src/dispatch.go:57-123 over values: configure, fault, shut down, crash, and
    any number of restarts on the state directories of the host. */
module Lifecycle {
  import opened Basics
  import opened Accounts
  import opened Durable
  import opened Scheduler
  import opened Invariants
  import opened Durability
  import opened Blocks

  /** A lifecycle request. `valid` is that it parses with schema 6; `good` that the configuration was
      read without an error (otherwise `cfg` is partial). `readable` is as for `Load`. */
  datatype ConfigureRequest = ConfigureRequest(valid: bool, good: bool, cfg: Configuration, readable: bool, now: Time, save: SaveFault)

  /** `configure`, given what opening the store of the configured directory yields: its contents, or
      nothing when it is locked or unavailable. */
  function Configure(pool: Option<Pool>, r: ConfigureRequest, found: Option<Contents>): Option<Pool> {
    if !r.valid then pool
    else match pool
      case Some(p) =>
        if !r.good then Some(p.(fault := ConfigurationError))
        else
          var (q, ok) := Reconfigure(p, r.cfg, r.now, r.save);
          Some(if ok then q else q.(fault := RestartRequired))
      case None =>
        if !r.good then Some(FaultedPool(r.cfg, ConfigurationError))
        else if found.None? || Load(found.value, r.readable).None? then Some(FaultedPool(r.cfg, StateUnavailable))
        else Some(Opened(r.cfg, Load(found.value, r.readable).value, found.value))
  }

  // ---------------------------------------------------------------- fail-closed absorption

  /** A pool without a store, which is faulted. */
  ghost predicate FailClosed(p: Pool) {
    p.store.NoStore? && p.fault != NoFault
  }

  /** No step of its own opens such a pool. It refuses every managed pick, and its guard rejects exactly
      the models of a configuration with accounts; one without accounts lets every model pass. */
  lemma FailClosedAbsorbs(p: Pool, step: Step)
    requires FailClosed(p) && Proper(step)
    ensures FailClosed(Apply(p, step))
    ensures step.PickStep? ==> (Pick(p, step.req, step.now, step.save).1.Refused? <==> Managed(p, step.req))
                               && !Pick(p, step.req, step.now, step.save).1.Handled?
    ensures step.GuardStep? ==>
              (Guard(p, step.model, step.forwarded, step.now).1.Rejected? <==> p.cfg.accounts != [] && step.model in p.cfg.models)
  {
  }

  /** Neither does any lifecycle request, whatever the store of the directory holds by then; it is
      not replaced by a fresh pool. */
  lemma ConfigureAbsorbs(p: Pool, r: ConfigureRequest, found: Option<Contents>)
    requires FailClosed(p)
    ensures Configure(Some(p), r, found).Some? && FailClosed(Configure(Some(p), r, found).value)
    ensures Configure(Some(p), r, found).value.(fault := p.fault) == p
  {
  }

  // ---------------------------------------------------------------- the world of one host

  /** The pool of the running plugin, if any, and the contents of the state directories. The
      directory of a live pool is held by the pool. */
  datatype World = World(pool: Option<Pool>, disks: map<string, Contents>)

  datatype Event =
    | Configured(request: ConfigureRequest, lockable: bool)
    | Called(step: Step)
    | ShutDown(save: SaveFault, now: Time)
    | Crashed(now: Time)

  function When(e: Event): Time {
    match e
    case Configured(r, _) => r.now
    case Called(step) => step.now
    case ShutDown(_, now) => now
    case Crashed(now) => now
  }

  function ContentsAt(disks: map<string, Contents>, dir: string): Contents {
    if dir in disks then disks[dir] else Missing
  }

  /** What is left on the host when the pool goes away. */
  function Left(p: Pool, disks: map<string, Contents>): map<string, Contents> {
    if p.store.Attached? then disks[p.cfg.stateDir := p.store.contents] else disks
  }

  ghost function Happens(w: World, e: Event): World {
    match e
    case Configured(r, lockable) =>
      w.(pool := Configure(w.pool, r, if lockable then Some(ContentsAt(w.disks, r.cfg.stateDir)) else None))
    case Called(step) => if w.pool.None? then w else w.(pool := Some(Apply(w.pool.value, step)))
    case ShutDown(f, _) => if w.pool.None? then w else World(None, Left(Close(w.pool.value, f), w.disks))
    case Crashed(_) => if w.pool.None? then w else World(None, Left(w.pool.value, w.disks))
  }

  ghost function History(w: World, events: seq<Event>): World
    decreases |events|
  {
    if events == [] then w else History(Happens(w, events[0]), events[1..])
  }

  ghost predicate Chronological(events: seq<Event>, t: Time) {
    events == [] || (t <= When(events[0]) && Chronological(events[1..], When(events[0])))
  }

  ghost function EndOf(events: seq<Event>, t: Time): Time {
    if events == [] then t else When(events[|events| - 1])
  }

  ghost predicate ProperEvent(e: Event) {
    && (e.Called? ==> Proper(e.step) && !e.step.ReconfigureStep?)
    && (e.Configured? && e.request.good ==> GoodConfiguration(e.request.cfg))
  }

  /** What is asked of a live pool. */
  ghost predicate SoundPool(p: Pool, t: Time) {
    FailClosed(p) || (p.store.Attached? && Invariant(p, t))
  }

  /** What holds of a host at all times: a live pool is sound or fail-closed, and every state
      directory can be taken up again. */
  ghost predicate Sound(w: World, t: Time) {
    && t > 0
    && (w.pool.Some? ==> SoundPool(w.pool.value, t))
    && (forall dir :: dir in w.disks ==> GoodContents(w.disks[dir], t))
  }

  lemma SoundLater(w: World, t: Time, t': Time)
    requires Sound(w, t) && t <= t'
    ensures Sound(w, t')
  {
  }

  lemma LeftIsGood(p: Pool, disks: map<string, Contents>, t: Time)
    requires forall dir :: dir in disks ==> GoodContents(disks[dir], t)
    requires p.store.Attached? ==> Invariant(p, t)
    ensures forall dir :: dir in Left(p, disks) ==> GoodContents(Left(p, disks)[dir], t)
  {
  }

  lemma StoreKindStays(p: Pool, step: Step)
    ensures Apply(p, step).store.NoStore? <==> p.store.NoStore?
  {
    FileFrame(p, step);
  }

  lemma ConfigureIsSound(w: World, r: ConfigureRequest, lockable: bool)
    requires Sound(w, r.now) && (r.good ==> GoodConfiguration(r.cfg))
    ensures Sound(Happens(w, Configured(r, lockable)), r.now)
  {
    var found := if lockable then Some(ContentsAt(w.disks, r.cfg.stateDir)) else None;
    if w.pool.None? {
      CreatedIsSound(r, found);
    } else if FailClosed(w.pool.value) {
      ConfigureAbsorbs(w.pool.value, r, found);
    } else {
      ReconfiguredIsSound(w.pool.value, r, found);
    }
  }

  lemma CreatedIsSound(r: ConfigureRequest, found: Option<Contents>)
    requires r.now > 0 && (r.good ==> GoodConfiguration(r.cfg)) && (found.Some? ==> GoodContents(found.value, r.now))
    ensures var q := Configure(None, r, found); q.Some? ==> SoundPool(q.value, r.now)
  {
    if r.good && found.Some? && Load(found.value, r.readable).Some? {
      OpenedIsGood(r.cfg, found.value, r.readable, r.now);
    }
  }

  lemma ReconfiguredIsSound(p: Pool, r: ConfigureRequest, found: Option<Contents>)
    requires p.store.Attached? && Invariant(p, r.now) && (r.good ==> GoodConfiguration(r.cfg))
    ensures var q := Configure(Some(p), r, found); q.Some? && SoundPool(q.value, r.now)
  {
    if r.good {
      ReconfigureKeeps(p, r.cfg, r.now, r.save);
    }
  }

  lemma EventIsSound(w: World, e: Event, t: Time)
    requires Sound(w, t) && t <= When(e) && ProperEvent(e)
    ensures Sound(Happens(w, e), When(e))
  {
    SoundLater(w, t, When(e));
    match e
    case Configured(r, lockable) => ConfigureIsSound(w, r, lockable);
    case Called(step) =>
      if w.pool.Some? {
        if FailClosed(w.pool.value) {
          FailClosedAbsorbs(w.pool.value, step);
        } else {
          StepKeeps(w.pool.value, step, t);
          StoreKindStays(w.pool.value, step);
        }
      }
    case ShutDown(f, now) =>
      if w.pool.Some? {
        if w.pool.value.store.Attached? {
          CloseKeeps(w.pool.value, now, f);
        }
        LeftIsGood(Close(w.pool.value, f), w.disks, now);
      }
    case Crashed(now) =>
      if w.pool.Some? {
        LeftIsGood(w.pool.value, w.disks, now);
      }
  }

  /** Over any history of one host, with crashes at any point, restarts, failing saves, locked or
      unreadable directories and bad configurations, a live pool is sound or fail-closed. */
  lemma {:induction false} HistoryIsSound(w: World, events: seq<Event>, t: Time)
    requires Sound(w, t) && Chronological(events, t)
    requires forall i :: 0 <= i < |events| ==> ProperEvent(events[i])
    ensures Sound(History(w, events), EndOf(events, t))
    decreases |events|
  {
    if events != [] {
      EventIsSound(w, events[0], t);
      HistoryIsSound(Happens(w, events[0]), events[1..], When(events[0]));
    }
  }

  /** A host that was never used is sound. */
  lemma FreshHostIsSound(t: Time)
    requires t > 0
    ensures Sound(World(None, map[]), t)
  {
  }

  /** A pool that is fail-closed stays so, with the disks untouched, through every event but its own
      shutdown or the end of the process. */
  lemma {:induction false} FailClosedUntilRestart(w: World, events: seq<Event>, k: nat)
    requires w.pool.Some? && FailClosed(w.pool.value) && k <= |events|
    requires forall i :: 0 <= i < |events| ==> ProperEvent(events[i]) && (events[i].Configured? || events[i].Called?)
    ensures var v := History(w, events[..k]);
            v.pool.Some? && FailClosed(v.pool.value) && v.disks == w.disks
    decreases k
  {
    if k > 0 {
      FailClosedUntilRestart(w, events, k - 1);
      HistorySnoc(w, events[..k - 1], events[k - 1]);
      assert events[..k] == events[..k - 1] + [events[k - 1]];
      var v := History(w, events[..k - 1]);
      match events[k - 1]
      case Called(step) => FailClosedAbsorbs(v.pool.value, step);
      case Configured(r, lockable) =>
        ConfigureAbsorbs(v.pool.value, r, if lockable then Some(ContentsAt(v.disks, r.cfg.stateDir)) else None);
      case _ =>
    }
  }

  lemma {:induction false} HistorySnoc(w: World, events: seq<Event>, e: Event)
    ensures History(w, events + [e]) == Happens(History(w, events), e)
    decreases |events|
  {
    if events == [] {
      assert [e][1..] == [];
      assert History(w, [e]) == History(Happens(w, e), []);
    } else {
      assert (events + [e])[1..] == events[1..] + [e];
      HistorySnoc(Happens(w, events[0]), events[1..], e);
    }
  }

  /** What the file of a pool's store holds. */
  function FileOf(p: Pool): Persisted {
    if p.store.Attached? then OnDisk(p.store.contents) else EmptyState
  }

  lemma RestartReloads(p: Pool, disks: map<string, Contents>, t: Time, crash: Time, r: ConfigureRequest)
    requires p.store.Attached? && Invariant(p, t) && p.fault == NoFault && r.cfg == p.cfg
    requires r.valid && r.good && r.readable && |FileOf(p).keys| <= KEY_LIMIT
    ensures var v := Happens(Happens(World(Some(p), disks), Crashed(crash)), Configured(r, true));
            v.pool.Some? && v.pool.value.fault == NoFault && ReloadsAs(p, v.pool.value)
  {
    var c := p.store.contents;
    if c.Written? {
      DecodableExactly(c.state, t);
    }
    OpenPoolReloads(p, t);
  }

  /** A crash and a restart with the same configuration, in a history in which the pool was open to
      traffic: the new pool has the same record for every configured key and the same current
      account, provided that the directory can be locked and read and holds at most 10000 keys. */
  lemma CrashAndRestart(w: World, events: seq<Event>, t: Time, crash: Time, r: ConfigureRequest)
    requires Sound(w, t) && Chronological(events, t)
    requires forall i :: 0 <= i < |events| ==> ProperEvent(events[i])
    requires var v := History(w, events); v.pool.Some? && v.pool.value.fault == NoFault && r.cfg == v.pool.value.cfg
    requires EndOf(events, t) <= crash <= r.now && r.valid && r.good && r.readable
    requires |FileOf(History(w, events).pool.value).keys| <= KEY_LIMIT
    ensures var p := History(w, events).pool.value;
            var v := Happens(Happens(History(w, events), Crashed(crash)), Configured(r, true));
            v.pool.Some? && v.pool.value.fault == NoFault && ReloadsAs(p, v.pool.value)
  {
    HistoryIsSound(w, events, t);
    var v := History(w, events);
    RestartReloads(v.pool.value, v.disks, EndOf(events, t), crash, r);
  }
}

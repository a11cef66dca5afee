/** The theorems about blocks over the whole life of a host: any history of requests, calls, crashes,
    shutdowns and restarts, with what the state directories hold in between. */
module Histories {
  import opened Basics
  import opened Accounts
  import opened Durable
  import opened Scheduler
  import opened Invariants
  import opened Blocks
  import opened Recovery
  import opened Lifecycle

  // ---------------------------------------------------------------- histories with all their states

  /** `worlds` are the states that `events` go through. */
  ghost predicate IsHistory(worlds: seq<World>, events: seq<Event>) {
    |worlds| == |events| + 1 && forall i :: 0 <= i < |events| ==> worlds[i + 1] == Happens(worlds[i], events[i])
  }

  function WhenAt(events: seq<Event>, k: nat, t: Time): Time
    requires k <= |events|
  {
    if k == 0 then t else When(events[k - 1])
  }

  lemma {:induction false} ChronologicalAt(events: seq<Event>, t: Time, k: nat)
    requires Chronological(events, t) && k < |events|
    ensures WhenAt(events, k, t) <= When(events[k])
    ensures t <= When(events[k])
    decreases |events|
  {
    if k > 0 {
      ChronologicalAt(events[1..], When(events[0]), k - 1);
    }
  }

  ghost predicate AllProperEvents(events: seq<Event>) {
    forall i :: 0 <= i < |events| ==> ProperEvent(events[i])
  }

  lemma {:induction false} SoundAt(worlds: seq<World>, events: seq<Event>, t: Time, k: nat)
    requires IsHistory(worlds, events) && Chronological(events, t) && AllProperEvents(events)
    requires Sound(worlds[0], t) && k <= |events|
    ensures Sound(worlds[k], WhenAt(events, k, t))
    decreases k
  {
    if k > 0 {
      SoundAt(worlds, events, t, k - 1);
      ChronologicalAt(events, t, k - 1);
      EventIsSound(worlds[k - 1], events[k - 1], WhenAt(events, k - 1, t));
    }
  }

  // ---------------------------------------------------------------- bounded recovery

  /** No block lasts beyond `b`: not in the memory of a live pool, and not in any file. */
  ghost predicate WorldOver(w: World, b: Time) {
    && (w.pool.Some? && w.pool.value.store.Attached? ==> PoolOver(w.pool.value, b))
    && (forall dir :: dir in w.disks ==> StateOver(OnDisk(w.disks[dir]), b))
  }

  ghost predicate StateOver(s: Persisted, b: Time) {
    forall h :: OverBy(KeyOf(s, h), b)
  }

  ghost predicate PoolOver(p: Pool, b: Time) {
    StateOver(p.mem, b) && (p.store.Attached? ==> StateOver(OnDisk(p.store.contents), b))
  }

  lemma SoundIsOver(w: World, t: Time, b: Time)
    requires Sound(w, t) && t + LONGEST <= b
    ensures WorldOver(w, b)
  {
  }

  /** The event observes a failure. */
  predicate ObservesFailure(e: Event) {
    e.Called? && e.step.ObserveStep? && e.step.rec.failed
  }

  lemma CallStaysOver(p: Pool, step: Step, b: Time)
    requires PoolOver(p, b) && b >= 0 && GoodConfiguration(p.cfg) && Proper(step)
    requires step.ObserveStep? && step.rec.failed ==> step.now + LONGEST <= b
    ensures PoolOver(Apply(p, step), b)
  {
    var q := Apply(p, step);
    FileFrame(p, step);
    forall h
      ensures OverBy(KeyOf(q.mem, h), b)
      ensures q.store.Attached? ==> OverBy(KeyOf(OnDisk(q.store.contents), h), b)
    {
      assert OverBy(KeyOf(p.mem, h), b);
      if step.ObserveStep? && step.rec.failed {
        BlocksAreBounded(p, step, h, b);
      } else {
        NoFailureNoBlock(p, step, h, b);
      }
      assert p.store.Attached? ==> OverBy(KeyOf(OnDisk(p.store.contents), h), b);
    }
  }

  lemma OpenedIsOver(cfg: Configuration, c: Contents, readable: bool, b: Time)
    requires Load(c, readable).Some? && StateOver(OnDisk(c), b)
    ensures PoolOver(Opened(cfg, Load(c, readable).value, c), b)
  {
    var p := Opened(cfg, Load(c, readable).value, c);
    forall h
      ensures OverBy(KeyOf(p.mem, h), b)
    {
      OpenedRecord(cfg, c, readable, h);
      assert OverBy(KeyOf(OnDisk(c), h), b);
    }
  }

  lemma LeftIsOver(p: Pool, disks: map<string, Contents>, b: Time)
    requires p.store.Attached? ==> PoolOver(p, b)
    requires forall dir :: dir in disks ==> StateOver(OnDisk(disks[dir]), b)
    ensures forall dir :: dir in Left(p, disks) ==> StateOver(OnDisk(Left(p, disks)[dir]), b)
  {
  }

  lemma ConfiguredStaysOver(w: World, r: ConfigureRequest, lockable: bool, t: Time, b: Time)
    requires Sound(w, t) && WorldOver(w, b) && b >= 0 && (r.good ==> GoodConfiguration(r.cfg))
    ensures WorldOver(Happens(w, Configured(r, lockable)), b)
  {
    if r.valid {
      match w.pool
      case Some(p) =>
        if r.good && p.store.Attached? {
          CallStaysOver(p, ReconfigureStep(r.cfg, r.now, r.save), b);
        }
      case None =>
        var c := ContentsAt(w.disks, r.cfg.stateDir);
        if r.good && lockable && Load(c, r.readable).Some? {
          OpenedIsOver(r.cfg, c, r.readable, b);
        }
    }
  }

  lemma EventStaysOver(w: World, e: Event, t: Time, b: Time)
    requires Sound(w, t) && WorldOver(w, b) && b >= 0 && ProperEvent(e)
    requires ObservesFailure(e) ==> When(e) + LONGEST <= b
    ensures WorldOver(Happens(w, e), b)
  {
    match e
    case Configured(r, lockable) => ConfiguredStaysOver(w, r, lockable, t, b);
    case Called(step) =>
      if w.pool.Some? && w.pool.value.store.Attached? {
        CallStaysOver(w.pool.value, step, b);
      } else if w.pool.Some? {
        StoreKindStays(w.pool.value, step);
      }
    case ShutDown(f, now) =>
      if w.pool.Some? {
        if w.pool.value.store.Attached? {
          CallStaysOver(w.pool.value, CloseStep(now, f), b);
        }
        LeftIsOver(Close(w.pool.value, f), w.disks, b);
      }
    case Crashed(now) =>
      if w.pool.Some? {
        LeftIsOver(w.pool.value, w.disks, b);
      }
  }

  /** No failure is observed after `last`. */
  ghost predicate QuietAfter(events: seq<Event>, last: Time) {
    forall i :: 0 <= i < |events| && ObservesFailure(events[i]) ==> When(events[i]) <= last
  }

  lemma {:induction false} HistoryIsOver(worlds: seq<World>, events: seq<Event>, t: Time, last: Time, k: nat)
    requires IsHistory(worlds, events) && Chronological(events, t) && AllProperEvents(events)
    requires Sound(worlds[0], t) && k <= |events| && t <= last && QuietAfter(events, last)
    ensures WorldOver(worlds[k], last + LONGEST)
    decreases k
  {
    if k == 0 {
      SoundIsOver(worlds[0], t, last + LONGEST);
    } else {
      HistoryIsOver(worlds, events, t, last, k - 1);
      SoundAt(worlds, events, t, k - 1);
      EventStaysOver(worlds[k - 1], events[k - 1], WhenAt(events, k - 1, t), last + LONGEST);
    }
  }

  /** The pool is open to traffic, and what is current is enabled or absent. */
  ghost predicate OpenToTraffic(p: Pool) {
    p.store.Attached? && p.fault == NoFault && !p.closed && CurrentEnabled(p)
  }

  /** Bounded recovery over the life of a host: if no failure has been observed for 366 days, across
      any crashes, shutdowns and restarts, every enabled account is eligible, and an open pool serves
      every request that lists its accounts. */
  lemma HostRecovers(worlds: seq<World>, events: seq<Event>, t: Time, last: Time, p: Pool, now: Time, req: Request, i: nat)
    requires IsHistory(worlds, events) && Chronological(events, t) && AllProperEvents(events)
    requires Sound(worlds[0], t) && t <= last && QuietAfter(events, last)
    requires now >= last + LONGEST && now >= WhenAt(events, |events|, t)
    requires worlds[|events|].pool == Some(p) && OpenToTraffic(p)
    requires i < |p.cfg.accounts| && !p.cfg.accounts[i].disabled && ListsAll(req, p.cfg.accounts)
    ensures forall j :: 0 <= j < |p.cfg.accounts| && !p.cfg.accounts[j].disabled ==> IsEligible(p.mem, p.cfg.accounts, j, now)
    ensures Pick(p, req, now, Flawless).1.Handled?
  {
    HistoryIsOver(worlds, events, t, last, |events|);
    SoundAt(worlds, events, t, |events|);
    InvariantLater(p, WhenAt(events, |events|, t), now);
    AllOverServes(p, last + LONGEST, req, now, i);
  }

  // ---------------------------------------------------------------- blocks never shrink

  /** Every record of the host is tied: in a live pool and in every file. */
  ghost predicate WorldTied(w: World, d: Configuration) {
    && GoodDuration(d.authSuspension) && GoodDuration(d.transientFallback)
    && (w.pool.Some? && w.pool.value.store.Attached? ==> Tied(w.pool.value, d))
    && (forall dir :: dir in w.disks ==> TiedState(OnDisk(w.disks[dir]), d))
  }

  /** The event leaves the durations as they are. */
  predicate FixedDurations(e: Event, d: Configuration) {
    e.Configured? && e.request.good ==> SameDurations(e.request.cfg, d)
  }

  lemma FreshHostIsTied(d: Configuration)
    requires GoodDuration(d.authSuspension) && GoodDuration(d.transientFallback)
    ensures WorldTied(World(None, map[]), d)
  {
  }

  lemma ConfiguredStaysTied(w: World, r: ConfigureRequest, lockable: bool, d: Configuration)
    requires WorldTied(w, d) && r.now > 0 && (r.good ==> SameDurations(r.cfg, d))
    ensures WorldTied(Happens(w, Configured(r, lockable)), d)
  {
    if r.valid {
      match w.pool
      case Some(p) =>
        if r.good && p.store.Attached? {
          StepStaysTied(p, ReconfigureStep(r.cfg, r.now, r.save), d);
        }
      case None =>
        var c := ContentsAt(w.disks, r.cfg.stateDir);
        FreshStateIsTied(d);
        if r.good && lockable && Load(c, r.readable).Some? {
          OpenedIsTied(r.cfg, c, r.readable, d);
        }
    }
  }

  lemma LeftIsTied(p: Pool, disks: map<string, Contents>, d: Configuration)
    requires p.store.Attached? ==> Tied(p, d)
    requires forall dir :: dir in disks ==> TiedState(OnDisk(disks[dir]), d)
    ensures forall dir :: dir in Left(p, disks) ==> TiedState(OnDisk(Left(p, disks)[dir]), d)
  {
  }

  /** Every event keeps the ties, also across restarts. */
  lemma EventStaysTied(w: World, e: Event, d: Configuration)
    requires WorldTied(w, d) && When(e) > 0 && ProperEvent(e) && FixedDurations(e, d)
    ensures WorldTied(Happens(w, e), d)
  {
    match e
    case Configured(r, lockable) => ConfiguredStaysTied(w, r, lockable, d);
    case Called(step) =>
      if w.pool.Some? && w.pool.value.store.Attached? {
        StepStaysTied(w.pool.value, step, d);
      } else if w.pool.Some? {
        StoreKindStays(w.pool.value, step);
      }
    case ShutDown(f, now) =>
      if w.pool.Some? {
        if w.pool.value.store.Attached? {
          StepStaysTied(w.pool.value, CloseStep(now, f), d);
        }
        LeftIsTied(Close(w.pool.value, f), w.disks, d);
      }
    case Crashed(now) =>
      if w.pool.Some? {
        LeftIsTied(w.pool.value, w.disks, d);
      }
  }

  ghost predicate AllFixed(events: seq<Event>, d: Configuration) {
    forall i :: 0 <= i < |events| ==> FixedDurations(events[i], d)
  }

  lemma {:induction false} HistoryStaysTied(worlds: seq<World>, events: seq<Event>, t: Time, d: Configuration, k: nat)
    requires IsHistory(worlds, events) && Chronological(events, t) && AllProperEvents(events) && t > 0
    requires WorldTied(worlds[0], d) && AllFixed(events, d) && k <= |events|
    ensures WorldTied(worlds[k], d)
    decreases k
  {
    if k > 0 {
      HistoryStaysTied(worlds, events, t, d, k - 1);
      ChronologicalAt(events, t, k - 1);
      EventStaysTied(worlds[k - 1], events[k - 1], d);
    }
  }

  /** The live pool works on this directory. */
  predicate LiveOn(w: World, dir: string) {
    w.pool.Some? && w.pool.value.store.Attached? && w.pool.value.cfg.stateDir == dir
  }

  /** The record of a key of a directory: in the memory of the pool on it, or else in its file. */
  function RecordOn(w: World, dir: string, h: string): KeyRecord {
    if LiveOn(w, dir) then KeyOf(w.pool.value.mem, h) else KeyOf(OnDisk(ContentsAt(w.disks, dir)), h)
  }

  /** What the claim below asks of an event: records of the key carry honest stamps, it is no resume of
      the key, and if it ends the pool of the directory, that pool has no fault and the key. */
  ghost predicate Gentle(w: World, e: Event, dir: string, h: string) {
    && (e.Called? && w.pool.Some? ==>
          HonestFor(w.pool.value, e.step, h) && !ResumesKey(w.pool.value, e.step, h))
    && ((e.Crashed? || e.ShutDown?) && LiveOn(w, dir) ==>
          w.pool.value.fault == NoFault && h in Fingerprints(w.pool.value.cfg.accounts))
  }

  lemma CallNeverShrinks(w: World, step: Step, d: Configuration, dir: string, h: string)
    requires WorldTied(w, d) && step.now > 0 && Gentle(w, Called(step), dir, h) && !step.ReconfigureStep?
    ensures NoShorter(RecordOn(w, dir, h), RecordOn(Happens(w, Called(step)), dir, h))
  {
    if w.pool.Some? {
      StoreKindStays(w.pool.value, step);
      CfgFrame(w.pool.value, step);
      if LiveOn(w, dir) {
        BlockShortenedExactly(w.pool.value, step, h, d);
      }
    }
  }

  lemma ReconfigureInPlace(p: Pool, r: ConfigureRequest, found: Option<Contents>, h: string)
    ensures var q := Configure(Some(p), r, found);
            && q.Some? && KeyOf(q.value.mem, h) == KeyOf(p.mem, h) && q.value.cfg.stateDir == p.cfg.stateDir
            && (q.value.store.Attached? <==> p.store.Attached?)
  {
    ReconfigureKeys(p, r.cfg, r.now, r.save, h);
    StoreKindStays(p, ReconfigureStep(r.cfg, r.now, r.save));
  }

  lemma ConfiguredKeepsRecord(w: World, r: ConfigureRequest, lockable: bool, dir: string, h: string)
    ensures RecordOn(Happens(w, Configured(r, lockable)), dir, h) == RecordOn(w, dir, h)
  {
    var c := ContentsAt(w.disks, r.cfg.stateDir);
    if w.pool.Some? {
      ReconfigureInPlace(w.pool.value, r, if lockable then Some(c) else None, h);
    } else if r.valid && r.good && lockable && Load(c, r.readable).Some? {
      OpenedRecord(r.cfg, c, r.readable, h);
    }
  }

  /** The end of a pool without a fault loses no record of a configured key, whatever its last save
      does. */
  lemma EndKeepsRecord(w: World, e: Event, t: Time, dir: string, h: string)
    requires Sound(w, t) && (e.Crashed? || e.ShutDown?) && Gentle(w, e, dir, h)
    ensures RecordOn(Happens(w, e), dir, h) == RecordOn(w, dir, h)
  {
  }

  /** Over the life of a host, from a fresh one or from any tied one: with a clock that does not go back
      (across restarts too), fixed durations and honest stamps on the records of the key, none of the
      four expiry times of a key decreases between two points without a resume of it between them. This
      includes crashes and restarts at points at which the pool has no fault. */
  lemma {:induction false} BlocksSurviveRestarts(worlds: seq<World>, events: seq<Event>, t: Time, d: Configuration, dir: string, h: string, i: nat, j: nat)
    requires IsHistory(worlds, events) && Chronological(events, t) && AllProperEvents(events)
    requires Sound(worlds[0], t) && WorldTied(worlds[0], d) && AllFixed(events, d) && i <= j <= |events|
    requires forall k :: i <= k < j ==> Gentle(worlds[k], events[k], dir, h)
    ensures NoShorter(RecordOn(worlds[i], dir, h), RecordOn(worlds[j], dir, h))
    decreases j
  {
    if i < j {
      BlocksSurviveRestarts(worlds, events, t, d, dir, h, i, j - 1);
      HistoryStaysTied(worlds, events, t, d, j - 1);
      SoundAt(worlds, events, t, j - 1);
      ChronologicalAt(events, t, j - 1);
      EventNeverShrinks(worlds[j - 1], events[j - 1], WhenAt(events, j - 1, t), d, dir, h);
      NoShorterTransitive(RecordOn(worlds[i], dir, h), RecordOn(worlds[j - 1], dir, h), RecordOn(worlds[j], dir, h));
    }
  }

  lemma EventNeverShrinks(w: World, e: Event, t: Time, d: Configuration, dir: string, h: string)
    requires Sound(w, t) && WorldTied(w, d) && t <= When(e) && ProperEvent(e) && Gentle(w, e, dir, h)
    ensures NoShorter(RecordOn(w, dir, h), RecordOn(Happens(w, e), dir, h))
  {
    match e
    case Configured(r, lockable) => ConfiguredKeepsRecord(w, r, lockable, dir, h);
    case Called(step) => CallNeverShrinks(w, step, d, dir, h);
    case _ => EndKeepsRecord(w, e, t, dir, h);
  }
}

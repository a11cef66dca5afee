/** The application object of src/dispatch.go:13-123, which creates, faults, reconfigures and drops
    the pool. Each method is taken under the application's lock. */
module ApplicationObject {
  import opened Basics
  import opened AuthIDs
  import opened ConfigurationReader
  import opened Durable
  import opened Scheduler
  import opened PoolObject
  import Lifecycle

  /** The lifecycle request with what `readConfiguration` makes of it. Every request that is built this
      way is a proper event, so the theorems about histories apply to it. */
  method ReadRequest(sha: string -> string, valid: bool, o: Options, host: HostFile, readable: bool, now: int, save: SaveFault)
    returns (r: Lifecycle.ConfigureRequest)
    requires IsHashFunction(sha)
    ensures r.good <==> ConfigurationReader.Accepted(sha, o, host)
    ensures r.valid == valid && r.readable == readable && r.now == now && r.save == save
    ensures forall lockable :: Lifecycle.ProperEvent(Lifecycle.Configured(r, lockable))
  {
    var good, cfg := ReadConfiguration(sha, o, host);
    r := Lifecycle.ConfigureRequest(valid, good, cfg, readable, now, save);
  }

  class Application {
    var pool: LockedPool?

    ghost function Footprint(): set<object?>
      reads this, pool
    {
      if pool == null then {} else {pool, pool.store} + (set k | k in pool.repr)
    }

    ghost predicate Valid()
      reads this, pool, if pool == null then {} else pool.repr
    {
      pool != null ==> pool.Valid()
    }

    ghost function View(): Option<Pool>
      reads this, pool, if pool == null then {} else {pool.store}
    {
      if pool == null then None else Some(pool.View())
    }

    constructor ()
      ensures Valid() && View() == None
    {
      pool := null;
    }

    /** `failClosed`, and the marking of a pool whose configuration cannot be read. */
    method MarkFault(fault: Fault)
      requires Valid()
      modifies pool
      ensures Valid()
      ensures View() == if old(View()).None? then None else Some(old(View()).value.(fault := fault))
    {
      if pool != null {
        pool.fault := fault;
      }
    }

    /** `close`: the pool is saved, closed and dropped. */
    method Shutdown(f: SaveFault)
      requires Valid()
      modifies this, Footprint()
      ensures Valid() && View() == None
      ensures old(pool) != null ==> old(pool).View() == Scheduler.Close(old(View()).value, f)
    {
      if pool != null {
        var p := pool;
        var _ := p.Close(f);
        pool := null;
      }
    }

    /** `configure`; `store` is what opening the state directory yields. */
    method Configure(r: Lifecycle.ConfigureRequest, store: Store?)
      requires Valid()
      modifies this, Footprint()
      ensures Valid()
      ensures View() == Lifecycle.Configure(old(View()), r, if store == null then None else Some(old(store.contents)))
    {
      if !r.valid {
        return;
      }
      if !r.good {
        if pool != null {
          MarkFault(ConfigurationError);
        } else {
          pool := NewFaultedPool(r.cfg, ConfigurationError);
        }
        return;
      }
      if pool != null {
        ReconfigurePool(r);
      } else {
        CreatePool(r, store);
      }
    }

    method ReconfigurePool(r: Lifecycle.ConfigureRequest)
      requires Valid() && pool != null && r.valid && r.good
      modifies Footprint()
      ensures pool == old(pool) && Valid()
      ensures View() == Lifecycle.Configure(old(View()), r, None)
    {
      var ok := pool.Reconfigure(r.cfg, r.now, r.save);
      if !ok {
        pool.fault := RestartRequired;
      }
    }

    method CreatePool(r: Lifecycle.ConfigureRequest, store: Store?)
      requires pool == null && r.valid && r.good
      modifies this
      ensures Valid()
      ensures View() == Lifecycle.Configure(None, r, if store == null then None else Some(old(store.contents)))
    {
      if store == null {
        pool := NewFaultedPool(r.cfg, StateUnavailable);
        return;
      }
      var p := NewPool(r.cfg, store, r.readable);
      if p == null {
        pool := NewFaultedPool(r.cfg, StateUnavailable);
        return;
      }
      pool := p;
    }
  }
}

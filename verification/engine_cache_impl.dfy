/** The cache's own critical sections, updated in place, each proved against the value model. */
module EngineCacheCode {
  import opened Common
  import opened LruModel

  /** One use of a cached engine. */
  class Lease {
    const key: Key
    const engine: Engine
    var released: bool

    constructor (key: Key, engine: Engine)
      ensures this.key == key && this.engine == engine && !released
    {
      this.key := key;
      this.engine := engine;
      released := false;
    }

    /** `release()`: only the first call reaches the cache. */
    method Release(cache: EngineCache) returns (evicted: nat)
      requires cache.Valid()
      modifies this, cache
      ensures released && cache.Valid()
      ensures cache.View() == if old(released) then old(cache.View())
                              else LruModel.Release(old(cache.View()), key, cache.maxModels)
    {
      evicted := 0;
      if released { return; }
      released := true;
      evicted := cache.ReleaseKey(key);
    }
  }

  class EngineCache {
    const maxModels: nat
    var order: seq<Key>
    var slots: map<Key, Slot>

    ghost function View(): Cache
      reads this
    {
      Cache(order, slots)
    }

    ghost predicate Valid()
      reads this
    {
      WellFormed(View())
    }

    constructor (maxModels: nat)
      ensures Valid() && View() == Cache([], map[]) && this.maxModels == maxModels
    {
      this.maxModels := maxModels;
      order := [];
      slots := map[];
    }

    /** `_lease_locked`. */
    method LeaseLocked(key: Key) returns (lease: Lease)
      requires Valid() && key in slots
      modifies this
      ensures Valid() && View() == LruModel.LeaseLocked(old(View()), key)
      ensures fresh(lease) && lease.key == key && lease.engine == old(slots[key].engine) && !lease.released
    {
      LeaseWellFormed(View(), key);
      var slot := slots[key];
      slots := slots[key := Slot(slot.engine, slot.refs + 1)];
      order := Without(order, key) + [key];
      lease := new Lease(key, slot.engine);
    }

    /** `acquire_cached`, and the first locked section of `acquire`. */
    method LeaseIfCached(key: Key) returns (lease: Option<Lease>)
      requires Valid()
      modifies this
      ensures Valid() && lease.Some? == (key in old(slots))
      ensures lease.Some? ==> View() == LruModel.LeaseLocked(old(View()), key)
      ensures lease.Some? ==> fresh(lease.value) && !lease.value.released
      ensures lease.Some? ==> lease.value.key == key && lease.value.engine == old(slots)[key].engine
      ensures lease.None? ==> View() == old(View())
    {
      if key in slots {
        var l := LeaseLocked(key);
        lease := Some(l);
      } else {
        lease := None;
      }
    }

    /** The last locked section of `acquire`, after the load and the warm-up. */
    method InstallEngine(key: Key, engine: Engine) returns (lease: Lease, evicted: nat)
      requires Valid()
      modifies this
      ensures Valid() && View() == Install(old(View()), key, engine, maxModels)
      ensures fresh(lease) && lease.key == key && lease.engine == engine && !lease.released
    {
      PutWellFormed(View(), key, engine);
      if key !in order { order := order + [key]; }
      slots := slots[key := Slot(engine, 0)];
      lease := LeaseLocked(key);
      evicted := EvictLocked();
    }

    /** `_release`. */
    method ReleaseKey(key: Key) returns (evicted: nat)
      requires Valid()
      modifies this
      ensures Valid() && View() == LruModel.Release(old(View()), key, maxModels)
    {
      if key in slots && slots[key].refs > 0 {
        slots := slots[key := slots[key].(refs := slots[key].refs - 1)];
      }
      evicted := EvictLocked();
    }

    /** `next((k for k, s in self._slots.items() if s.refs == 0), None)`. */
    method NextVictim() returns (victim: Option<Key>)
      requires Valid()
      ensures victim == FirstIdle(order, slots)
    {
      var i := 0;
      while i < |order|
        invariant 0 <= i <= |order|
        invariant FirstIdle(order, slots) == FirstIdle(order[i..], slots)
      {
        if slots[order[i]].refs == 0 { return Some(order[i]); }
        assert order[i..][1..] == order[i + 1..];
        i := i + 1;
      }
      victim := None;
    }

    /** `_evict_locked`: the loop ends, with room or with nothing left to throw out. */
    method EvictLocked() returns (evicted: nat)
      requires Valid()
      modifies this
      ensures Valid() && View() == Evict(old(View()), maxModels) && SizeOk(View(), maxModels)
      ensures evicted == |old(order)| - |order|
    {
      evicted := 0;
      while |order| > maxModels
        invariant Valid() && Evict(View(), maxModels) == Evict(old(View()), maxModels)
        invariant evicted == |old(order)| - |order|
        decreases |order|
      {
        var victim := NextVictim();
        if victim.None? { break; }
        WithoutNoDup(order, victim.value);
        DropWellFormed(View(), victim.value);
        ghost var before := View();
        order := Without(order, victim.value);
        slots := map x | x in slots && x != victim.value :: slots[x];
        assert View() == Drop(before, victim.value);
        evicted := evicted + 1;
      }
      EvictKeeps(View(), maxModels);
    }
  }
}

/** The inference container's model cache as a value: an ordered dictionary of reference-counted
    slots, least recently used first, and the timestamped LRU it stands for. */
module LruModel {
  import opened Common

  datatype Key = Key(repo: string, revision: string)

  /** The identity of a loaded engine object. */
  type Engine = nat

  datatype Slot = Slot(engine: Engine, refs: nat)

  /** An OrderedDict: `order` lists the keys of `slots`, least recently used first. */
  datatype Cache = Cache(order: seq<Key>, slots: map<Key, Slot>)

  predicate NoDup(order: seq<Key>) {
    order == [] || (order[0] !in order[1..] && NoDup(order[1..]))
  }

  ghost predicate WellFormed(c: Cache) {
    NoDup(c.order) && forall k :: k in c.order <==> k in c.slots
  }

  function Without(order: seq<Key>, k: Key): (r: seq<Key>)
    ensures forall x :: x in r <==> x in order && x != k
    ensures |r| <= |order|
    ensures k in order ==> |r| < |order|
  {
    if order == [] then []
    else if order[0] == k then Without(order[1..], k)
    else [order[0]] + Without(order[1..], k)
  }

  lemma {:induction false} WithoutNoDup(order: seq<Key>, k: Key)
    requires NoDup(order)
    ensures NoDup(Without(order, k))
    ensures k in order ==> |Without(order, k)| == |order| - 1
    ensures k !in order ==> Without(order, k) == order
  {
    if order != [] {
      WithoutNoDup(order[1..], k);
      if order[0] != k {
        var r := Without(order, k);
        assert r[1..] == Without(order[1..], k);
      }
    }
  }

  lemma {:induction false} AppendNoDup(order: seq<Key>, k: Key)
    requires NoDup(order) && k !in order
    ensures NoDup(order + [k])
  {
    if order == [] {
      assert (order + [k])[1..] == [];
    } else {
      AppendNoDup(order[1..], k);
      assert (order + [k])[1..] == order[1..] + [k];
    }
  }

  /** `_lease_locked`: count one more use and move the key to the recent end. */
  function LeaseLocked(c: Cache, k: Key): Cache
    requires k in c.slots
  {
    var slot := c.slots[k];
    Cache(Without(c.order, k) + [k], c.slots[k := Slot(slot.engine, slot.refs + 1)])
  }

  /** The first key, in dictionary order, that nobody uses. */
  function FirstIdle(order: seq<Key>, slots: map<Key, Slot>): (r: Option<Key>)
    requires forall k :: k in order ==> k in slots
    ensures r.Some? ==> r.value in order && slots[r.value].refs == 0
    ensures r.None? ==> forall k :: k in order ==> slots[k].refs > 0
  {
    if order == [] then None
    else if slots[order[0]].refs == 0 then Some(order[0])
    else FirstIdle(order[1..], slots)
  }

  function Drop(c: Cache, k: Key): Cache {
    Cache(Without(c.order, k), map x | x in c.slots && x != k :: c.slots[x])
  }

  lemma DropWellFormed(c: Cache, k: Key)
    requires WellFormed(c)
    ensures WellFormed(Drop(c, k))
  {
    WithoutNoDup(c.order, k);
  }

  /** `_evict_locked`. */
  function Evict(c: Cache, max: nat): Cache
    requires forall k :: k in c.order ==> k in c.slots
    decreases |c.order|
  {
    if |c.order| <= max then c
    else match FirstIdle(c.order, c.slots)
      case None => c
      case Some(victim) => Evict(Drop(c, victim), max)
  }

  /** `_slots[key] = _Slot(engine)`: a key already present keeps its place. */
  function Put(c: Cache, k: Key, engine: Engine): Cache {
    Cache(if k in c.order then c.order else c.order + [k], c.slots[k := Slot(engine, 0)])
  }

  lemma PutWellFormed(c: Cache, k: Key, engine: Engine)
    requires WellFormed(c)
    ensures WellFormed(Put(c, k, engine))
  {
    if k !in c.order { AppendNoDup(c.order, k); }
  }

  lemma LeaseWellFormed(c: Cache, k: Key)
    requires WellFormed(c) && k in c.slots
    ensures WellFormed(LeaseLocked(c, k))
  {
    WithoutNoDup(c.order, k);
    AppendNoDup(Without(c.order, k), k);
  }

  /** The last critical section of `acquire`. */
  function Install(c: Cache, k: Key, engine: Engine, max: nat): Cache
    requires WellFormed(c)
  {
    PutWellFormed(c, k, engine);
    LeaseWellFormed(Put(c, k, engine), k);
    Evict(LeaseLocked(Put(c, k, engine), k), max)
  }

  function Decrement(c: Cache, k: Key): Cache {
    if k in c.slots && c.slots[k].refs > 0
    then c.(slots := c.slots[k := c.slots[k].(refs := c.slots[k].refs - 1)])
    else c
  }

  /** `_release`. */
  function Release(c: Cache, k: Key, max: nat): Cache
    requires WellFormed(c)
  {
    Evict(Decrement(c, k), max)
  }

  /** Room, or nothing to throw out. */
  ghost predicate SizeOk(c: Cache, max: nat)
    requires WellFormed(c)
  {
    |c.order| <= max || forall k :: k in c.slots ==> c.slots[k].refs > 0
  }

  /** What the eviction loop may and may not do: it removes only unused slots, touches no other slot,
      and stops only when there is room or nothing left to throw out. */
  lemma {:induction false} EvictKeeps(c: Cache, max: nat)
    requires WellFormed(c)
    ensures var d := Evict(c, max);
      && WellFormed(d) && SizeOk(d, max)
      && (forall k :: k in d.slots ==> k in c.slots && d.slots[k] == c.slots[k])
      && (forall k :: k in c.slots && k !in d.slots ==> c.slots[k].refs == 0)
      && (|c.order| <= max ==> d == c)
    decreases |c.order|
  {
    if |c.order| > max {
      var idle := FirstIdle(c.order, c.slots);
      if idle.Some? {
        DropWellFormed(c, idle.value);
        EvictKeeps(Drop(c, idle.value), max);
      }
    }
  }

  // ---- the timestamped LRU -------------------------------------------------------------------

  /** The cache as documented: every slot carries the time of its last lease, and there is no order. */
  datatype Stamped = Stamped(slots: map<Key, Slot>, last: map<Key, nat>, clock: nat)

  ghost predicate StampsOk(s: Stamped) {
    && (forall k :: k in s.slots <==> k in s.last)
    && (forall k :: k in s.last ==> s.last[k] < s.clock)
    && (forall j, k :: j in s.last && k in s.last && j != k ==> s.last[j] != s.last[k])
  }

  function Touch(s: Stamped, k: Key, slot: Slot): Stamped {
    Stamped(s.slots[k := slot], s.last[k := s.clock], s.clock + 1)
  }

  function OneMore(slot: Slot): Slot { Slot(slot.engine, slot.refs + 1) }

  /** The victim the documentation names: unused, and no unused key was leased longer ago. */
  ghost predicate OldestIdle(s: Stamped, v: Key) {
    && v in s.slots && v in s.last && s.slots[v].refs == 0
    && forall k :: k in s.slots && k in s.last && s.slots[k].refs == 0 ==> s.last[v] <= s.last[k]
  }

  function Forget(s: Stamped, v: Key): Stamped {
    Stamped(map x | x in s.slots && x != v :: s.slots[x], map x | x in s.last && x != v :: s.last[x], s.clock)
  }

  lemma OldestIdleUnique(s: Stamped, v: Key, w: Key)
    requires StampsOk(s) && OldestIdle(s, v) && OldestIdle(s, w)
    ensures v == w
  {
    assert s.last[v] <= s.last[w] && s.last[w] <= s.last[v];
  }

  /** `t` is what evicting the oldest unused key, for as long as there are more than `max`, leaves. */
  ghost predicate EvictsTo(s: Stamped, max: nat, t: Stamped)
    decreases |s.slots|
  {
    if |s.slots| <= max || (forall v :: v in s.slots ==> s.slots[v].refs > 0) then t == s
    else exists v :: OldestIdle(s, v) && |Forget(s, v).slots| < |s.slots| && EvictsTo(Forget(s, v), max, t)
  }

  /** Oldest-lease-first eviction has one outcome, so refining it pins the cache down completely. */
  lemma {:induction false} EvictsToUnique(s: Stamped, max: nat, t: Stamped, u: Stamped)
    requires StampsOk(s) && EvictsTo(s, max, t) && EvictsTo(s, max, u)
    ensures t == u
    decreases |s.slots|
  {
    if |s.slots| > max && !(forall v :: v in s.slots ==> s.slots[v].refs > 0) {
      var v :| OldestIdle(s, v) && |Forget(s, v).slots| < |s.slots| && EvictsTo(Forget(s, v), max, t);
      var w :| OldestIdle(s, w) && |Forget(s, w).slots| < |s.slots| && EvictsTo(Forget(s, w), max, u);
      OldestIdleUnique(s, v, w);
      EvictsToUnique(Forget(s, v), max, t, u);
    }
  }

  predicate SortedBy(order: seq<Key>, last: map<Key, nat>)
    requires forall k :: k in order ==> k in last
  {
    order == [] ||
    ((forall k :: k in order[1..] ==> last[order[0]] < last[k]) && SortedBy(order[1..], last))
  }

  /** The ordered dictionary is the stamped cache listed by stamp. */
  ghost predicate Refines(c: Cache, s: Stamped) {
    && WellFormed(c) && StampsOk(s)
    && c.slots == s.slots
    && SortedBy(c.order, s.last)
  }

  lemma {:induction false} SortedFrame(order: seq<Key>, a: map<Key, nat>, b: map<Key, nat>)
    requires forall k :: k in order ==> k in a && k in b && a[k] == b[k]
    requires SortedBy(order, a)
    ensures SortedBy(order, b)
  {
    if order != [] { SortedFrame(order[1..], a, b); }
  }

  lemma {:induction false} SortedWithout(order: seq<Key>, last: map<Key, nat>, k: Key)
    requires forall x :: x in order ==> x in last
    requires SortedBy(order, last)
    ensures SortedBy(Without(order, k), last)
  {
    if order != [] {
      SortedWithout(order[1..], last, k);
      if order[0] != k {
        assert Without(order, k)[1..] == Without(order[1..], k);
      }
    }
  }

  lemma {:induction false} SortedAppend(order: seq<Key>, last: map<Key, nat>, k: Key)
    requires k in last && forall x :: x in order ==> x in last && last[x] < last[k]
    requires SortedBy(order, last)
    ensures SortedBy(order + [k], last)
  {
    if order == [] {
      assert (order + [k])[1..] == [];
    } else {
      SortedAppend(order[1..], last, k);
      assert (order + [k])[1..] == order[1..] + [k];
    }
  }

  lemma {:induction false} LengthIsSize(order: seq<Key>, slots: map<Key, Slot>)
    requires NoDup(order) && forall k :: k in order <==> k in slots
    ensures |order| == |slots|
  {
    if order == [] {
      assert slots == map[];
    } else {
      var rest := map x | x in slots && x != order[0] :: slots[x];
      LengthIsSize(order[1..], rest);
      assert slots == rest[order[0] := slots[order[0]]];
    }
  }

  lemma {:induction false} FirstIdleIsOldest(order: seq<Key>, slots: map<Key, Slot>, last: map<Key, nat>)
    requires forall k :: k in order ==> k in slots && k in last
    requires SortedBy(order, last)
    requires FirstIdle(order, slots).Some?
    ensures var v := FirstIdle(order, slots).value;
      forall k :: k in order && slots[k].refs == 0 ==> last[v] <= last[k]
  {
    if slots[order[0]].refs != 0 { FirstIdleIsOldest(order[1..], slots, last); }
  }

  lemma TouchStamps(s: Stamped, k: Key, slot: Slot)
    requires StampsOk(s)
    ensures StampsOk(Touch(s, k, slot))
  {
  }

  lemma MovedLast(order: seq<Key>, last: map<Key, nat>, k: Key, clock: nat)
    requires forall x :: x in order ==> x in last && last[x] < clock
    requires SortedBy(order, last)
    ensures SortedBy(Without(order, k) + [k], last[k := clock])
  {
    SortedWithout(order, last, k);
    SortedFrame(Without(order, k), last, last[k := clock]);
    SortedAppend(Without(order, k), last[k := clock], k);
  }

  /** A lease moves the key to the end exactly as it takes the newest stamp. */
  lemma LeaseRefines(c: Cache, s: Stamped, k: Key)
    requires Refines(c, s) && k in c.slots
    ensures Refines(LeaseLocked(c, k), Touch(s, k, OneMore(s.slots[k])))
  {
    LeaseWellFormed(c, k);
    var t := Touch(s, k, OneMore(s.slots[k]));
    TouchStamps(s, k, OneMore(s.slots[k]));
    MovedLast(c.order, s.last, k, s.clock);
  }

  /** The eviction loop of the ordered dictionary evicts oldest-lease first. */
  lemma {:induction false} EvictRefines(c: Cache, s: Stamped, max: nat) returns (t: Stamped)
    requires Refines(c, s)
    ensures EvictsTo(s, max, t) && Refines(Evict(c, max), t)
    decreases |c.order|
  {
    LengthIsSize(c.order, c.slots);
    t := s;
    if |c.order| > max {
      var idle := FirstIdle(c.order, c.slots);
      if idle.Some? {
        var v := idle.value;
        FirstIdleIsOldest(c.order, c.slots, s.last);
        DropWellFormed(c, v);
        SortedWithout(c.order, s.last, v);
        var f := Forget(s, v);
        SortedFrame(Without(c.order, v), s.last, f.last);
        assert f.slots == Drop(c, v).slots;
        LengthIsSize(Without(c.order, v), f.slots);
        t := EvictRefines(Drop(c, v), f, max);
        assert OldestIdle(s, v) && EvictsTo(f, max, t);
      }
    }
  }

  /** Installing a loaded engine is: stamp it as the newest, then evict by oldest lease. */
  lemma InstallRefines(c: Cache, s: Stamped, k: Key, engine: Engine, max: nat) returns (t: Stamped)
    requires Refines(c, s) && k !in c.slots
    ensures EvictsTo(Touch(s, k, Slot(engine, 1)), max, t)
    ensures Refines(Install(c, k, engine, max), t)
  {
    var p := Put(c, k, engine);
    PutWellFormed(c, k, engine);
    LeaseWellFormed(p, k);
    var s1 := Touch(s, k, Slot(engine, 1));
    AppendedLast(c.order, k);
    WithoutNoDup(c.order, k);
    assert Refines(LeaseLocked(p, k), s1) by {
      TouchStamps(s, k, Slot(engine, 1));
      MovedLast(c.order, s.last, k, s.clock);
      assert LeaseLocked(p, k).order == c.order + [k] && LeaseLocked(p, k).slots == s1.slots;
    }
    t := EvictRefines(LeaseLocked(p, k), s1, max);
  }

  lemma {:induction false} AppendedLast(order: seq<Key>, k: Key)
    requires k !in order
    ensures Without(order + [k], k) == order
  {
    if order == [] {
      assert (order + [k])[1..] == [];
    } else {
      assert (order + [k])[1..] == order[1..] + [k];
      AppendedLast(order[1..], k);
    }
  }

  /** A release never changes a stamp; it only counts down and then evicts by oldest lease. */
  lemma ReleaseRefines(c: Cache, s: Stamped, k: Key, max: nat) returns (t: Stamped)
    requires Refines(c, s)
    ensures EvictsTo(s.(slots := Decrement(c, k).slots), max, t)
    ensures Refines(Release(c, k, max), t)
  {
    t := EvictRefines(Decrement(c, k), s.(slots := Decrement(c, k).slots), max);
  }
}

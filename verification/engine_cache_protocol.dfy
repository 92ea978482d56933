/** Any number of threads in `acquire`, `acquire_cached` and `Lease.release`, interleaved at the lock
    boundaries: each action below is one critical section (or one lock operation) of the source. */
module LruProtocol {
  import opened Common
  import opened LruModel

  type Tid = nat
  type Lock = nat

  /** Where a thread stands. The key-lock phases of `acquire` carry the lock the thread looked up. */
  datatype Pc =
    | Idle
    | WantsKey(key: Key, lock: Lock)
    | HoldsKey(key: Key, lock: Lock)
    | Loading(key: Key, lock: Lock)
    | Loaded(key: Key, lock: Lock, engine: Engine)
    | Warmed(key: Key, lock: Lock, engine: Engine)
    | Leaving(key: Key, lock: Lock)
    | Releasing(lease: nat)

  /** `released` is the lease's own flag; `counted` says its use is still part of the slot's refs. */
  datatype LeaseRec = LeaseRec(key: Key, engine: Engine, released: bool, counted: bool)

  datatype State = State(
    cache: Cache,
    max: nat,
    keyLocks: map<Key, Lock>,
    nextLock: Lock,
    holder: map<Lock, Tid>,
    pcs: map<Tid, Pc>,
    leases: seq<LeaseRec>,
    nextEngine: Engine,
    loadedFor: map<Engine, Key>,
    warmed: set<Engine>)

  datatype Action =
    | Acquire(key: Key)
    | AcquireCached(key: Key)
    | TakeKeyLock
    | LookUp
    | LoadFails
    | LoadReturns
    | WarmUp
    | InstallEngine
    | DropKeyLock
    | MarkReleased(lease: nat)
    | CountDown

  function PcOf(s: State, t: Tid): Pc {
    if t in s.pcs then s.pcs[t] else Idle
  }

  predicate Enabled(s: State, t: Tid, a: Action) {
    var pc := PcOf(s, t);
    match a
    case Acquire(_) => pc.Idle?
    case AcquireCached(_) => pc.Idle?
    case TakeKeyLock => pc.WantsKey? && pc.lock !in s.holder
    case LookUp => pc.HoldsKey?
    case LoadFails => pc.Loading?
    case LoadReturns => pc.Loading?
    case WarmUp => pc.Loaded?
    case InstallEngine => pc.Warmed?
    case DropKeyLock => pc.Leaving?
    case MarkReleased(l) => pc.Idle? && l < |s.leases|
    case CountDown => pc.Releasing? && pc.lease < |s.leases|
  }

  function At(s: State, t: Tid, pc: Pc): State {
    s.(pcs := s.pcs[t := pc])
  }

  function Lease(s: State, k: Key): State
    requires k in s.cache.slots
  {
    s.(cache := LeaseLocked(s.cache, k),
       leases := s.leases + [LeaseRec(k, s.cache.slots[k].engine, false, true)])
  }

  /** `_key_locks.setdefault(key, Lock())`: the first comer's lock stays. */
  function DoAcquire(s: State, t: Tid, k: Key): State {
    if k in s.keyLocks then At(s, t, WantsKey(k, s.keyLocks[k]))
    else At(s.(keyLocks := s.keyLocks[k := s.nextLock], nextLock := s.nextLock + 1), t, WantsKey(k, s.nextLock))
  }

  function DoTakeKeyLock(s: State, t: Tid, k: Key, lock: Lock): State {
    At(s.(holder := s.holder[lock := t]), t, HoldsKey(k, lock))
  }

  function DoLookUp(s: State, t: Tid, k: Key, lock: Lock): State {
    if k in s.cache.slots then At(Lease(s, k), t, Leaving(k, lock)) else At(s, t, Loading(k, lock))
  }

  /** The loader returns a new object. */
  function DoLoadReturns(s: State, t: Tid, k: Key, lock: Lock): State {
    At(s.(nextEngine := s.nextEngine + 1, loadedFor := s.loadedFor[s.nextEngine := k]),
       t, Loaded(k, lock, s.nextEngine))
  }

  function DoWarmUp(s: State, t: Tid, k: Key, lock: Lock, engine: Engine): State {
    At(s.(warmed := s.warmed + {engine}), t, Warmed(k, lock, engine))
  }

  function DoInstall(s: State, t: Tid, k: Key, lock: Lock, engine: Engine): State
    requires WellFormed(s.cache)
  {
    At(s.(cache := Install(s.cache, k, engine, s.max),
          leases := s.leases + [LeaseRec(k, engine, false, true)]), t, Leaving(k, lock))
  }

  function DoDropKeyLock(s: State, t: Tid, lock: Lock): State {
    At(s.(holder := map l | l in s.holder && l != lock :: s.holder[l]), t, Idle)
  }

  function DoMarkReleased(s: State, t: Tid, l: nat): State
    requires l < |s.leases|
  {
    if s.leases[l].released then s
    else At(s.(leases := s.leases[l := s.leases[l].(released := true)]), t, Releasing(l))
  }

  function DoCountDown(s: State, t: Tid, l: nat): State
    requires WellFormed(s.cache) && l < |s.leases|
  {
    At(s.(cache := Release(s.cache, s.leases[l].key, s.max),
          leases := s.leases[l := s.leases[l].(counted := false)]), t, Idle)
  }

  function Do(s: State, t: Tid, a: Action): State
    requires WellFormed(s.cache) && Enabled(s, t, a)
  {
    var pc := PcOf(s, t);
    match a
    case Acquire(k) => DoAcquire(s, t, k)
    case AcquireCached(k) => if k in s.cache.slots then Lease(s, k) else s
    case TakeKeyLock => DoTakeKeyLock(s, t, pc.key, pc.lock)
    case LookUp => DoLookUp(s, t, pc.key, pc.lock)
    case LoadFails => At(s, t, Leaving(pc.key, pc.lock))
    case LoadReturns => DoLoadReturns(s, t, pc.key, pc.lock)
    case WarmUp => DoWarmUp(s, t, pc.key, pc.lock, pc.engine)
    case InstallEngine => DoInstall(s, t, pc.key, pc.lock, pc.engine)
    case DropKeyLock => DoDropKeyLock(s, t, pc.lock)
    case MarkReleased(l) => DoMarkReleased(s, t, l)
    case CountDown => DoCountDown(s, t, pc.lease)
  }

  function InitState(max: nat): State {
    State(Cache([], map[]), max, map[], 0, map[], map[], [], 0, map[], {})
  }

  // ---- the invariant -------------------------------------------------------------------------

  /** The leases of `k` whose use is still counted. */
  function Outstanding(leases: seq<LeaseRec>, k: Key): set<nat> {
    set i: nat | i < |leases| && leases[i].key == k && leases[i].counted
  }

  ghost predicate CountsOk(slots: map<Key, Slot>, leases: seq<LeaseRec>) {
    forall k :: k in slots ==> slots[k].refs == |Outstanding(leases, k)|
  }

  /** A lease still counted has its slot, and in it the very engine it was given. */
  ghost predicate LeasesOk(slots: map<Key, Slot>, leases: seq<LeaseRec>) {
    forall i :: 0 <= i < |leases| && leases[i].counted ==>
      leases[i].key in slots && slots[leases[i].key].engine == leases[i].engine
  }

  predicate HasLock(pc: Pc) { !pc.Idle? && !pc.WantsKey? && !pc.Releasing? }

  predicate InLoad(pc: Pc) { pc.Loading? || pc.Loaded? || pc.Warmed? }

  /** One lock per key, for ever. */
  ghost predicate KeyLocksOk(keyLocks: map<Key, Lock>, nextLock: Lock) {
    && (forall k :: k in keyLocks ==> keyLocks[k] < nextLock)
    && (forall j, k :: j in keyLocks && k in keyLocks && keyLocks[j] == keyLocks[k] ==> j == k)
  }

  ghost predicate ThreadLocksOk(pcs: map<Tid, Pc>, keyLocks: map<Key, Lock>) {
    forall t :: t in pcs && (pcs[t].WantsKey? || HasLock(pcs[t])) ==>
      pcs[t].key in keyLocks && keyLocks[pcs[t].key] == pcs[t].lock
  }

  /** A key lock is held by exactly the thread whose phase says so. */
  ghost predicate HoldersOk(pcs: map<Tid, Pc>, holder: map<Lock, Tid>) {
    && (forall t :: t in pcs && HasLock(pcs[t]) ==> pcs[t].lock in holder && holder[pcs[t].lock] == t)
    && (forall l :: l in holder ==> holder[l] in pcs && HasLock(pcs[holder[l]]) && pcs[holder[l]].lock == l)
  }

  ghost predicate LoadsOk(pcs: map<Tid, Pc>, slots: map<Key, Slot>) {
    forall t :: t in pcs && InLoad(pcs[t]) ==> pcs[t].key !in slots
  }

  ghost predicate EngineIdsOk(loadedFor: map<Engine, Key>, nextEngine: Engine) {
    forall e :: e in loadedFor ==> e < nextEngine
  }

  predicate MadeFor(engine: Engine, k: Key, loadedFor: map<Engine, Key>) {
    engine in loadedFor && loadedFor[engine] == k
  }

  ghost predicate ThreadEnginesOk(pcs: map<Tid, Pc>, loadedFor: map<Engine, Key>, warmed: set<Engine>) {
    forall t :: t in pcs && (pcs[t].Loaded? || pcs[t].Warmed?) ==>
      MadeFor(pcs[t].engine, pcs[t].key, loadedFor) && (pcs[t].Warmed? ==> pcs[t].engine in warmed)
  }

  ghost predicate SlotEnginesOk(slots: map<Key, Slot>, loadedFor: map<Engine, Key>, warmed: set<Engine>) {
    forall k :: k in slots ==> slots[k].engine in warmed && MadeFor(slots[k].engine, k, loadedFor)
  }

  ghost predicate LeaseEnginesOk(leases: seq<LeaseRec>, loadedFor: map<Engine, Key>, warmed: set<Engine>) {
    forall i :: 0 <= i < |leases| ==> leases[i].engine in warmed && MadeFor(leases[i].engine, leases[i].key, loadedFor)
  }

  /** A lease is counted until the one thread that set its flag has counted it down. */
  ghost predicate FlagsOk(leases: seq<LeaseRec>) {
    forall i :: 0 <= i < |leases| && !leases[i].released ==> leases[i].counted
  }

  ghost predicate ReleasersOk(pcs: map<Tid, Pc>, leases: seq<LeaseRec>) {
    && (forall t :: t in pcs && pcs[t].Releasing? ==>
          pcs[t].lease < |leases| && leases[pcs[t].lease].released && leases[pcs[t].lease].counted)
    && (forall t, u :: t in pcs && u in pcs && pcs[t].Releasing? && pcs[u] == pcs[t] ==> t == u)
  }

  ghost predicate Inv(s: State) {
    && WellFormed(s.cache) && SizeOk(s.cache, s.max)
    && CountsOk(s.cache.slots, s.leases) && LeasesOk(s.cache.slots, s.leases)
    && KeyLocksOk(s.keyLocks, s.nextLock) && ThreadLocksOk(s.pcs, s.keyLocks) && HoldersOk(s.pcs, s.holder)
    && LoadsOk(s.pcs, s.cache.slots)
    && EngineIdsOk(s.loadedFor, s.nextEngine)
    && ThreadEnginesOk(s.pcs, s.loadedFor, s.warmed)
    && SlotEnginesOk(s.cache.slots, s.loadedFor, s.warmed)
    && LeaseEnginesOk(s.leases, s.loadedFor, s.warmed)
    && FlagsOk(s.leases) && ReleasersOk(s.pcs, s.leases)
  }

  lemma InitInv(max: nat)
    ensures Inv(InitState(max))
  {
  }

  // ---- how the lease count moves ---------------------------------------------------------------

  lemma AppendCounts(leases: seq<LeaseRec>, r: LeaseRec)
    requires r.counted
    ensures |Outstanding(leases + [r], r.key)| == |Outstanding(leases, r.key)| + 1
    ensures forall k :: k != r.key ==> Outstanding(leases + [r], k) == Outstanding(leases, k)
  {
    assert Outstanding(leases + [r], r.key) == Outstanding(leases, r.key) + {|leases|};
  }

  lemma DropCounts(leases: seq<LeaseRec>, i: nat)
    requires i < |leases| && leases[i].counted
    ensures var ls := leases[i := leases[i].(counted := false)];
      && |Outstanding(ls, leases[i].key)| == |Outstanding(leases, leases[i].key)| - 1
      && forall k :: k != leases[i].key ==> Outstanding(ls, k) == Outstanding(leases, k)
  {
    var ls := leases[i := leases[i].(counted := false)];
    assert Outstanding(ls, leases[i].key) == Outstanding(leases, leases[i].key) - {i};
  }

  lemma MarkCounts(leases: seq<LeaseRec>, i: nat)
    requires i < |leases|
    ensures forall k :: Outstanding(leases[i := leases[i].(released := true)], k) == Outstanding(leases, k)
  {
  }

  // ---- every action keeps the invariant --------------------------------------------------------

  lemma LeaseInv(s: State, k: Key)
    requires Inv(s) && k in s.cache.slots
    ensures Inv(Lease(s, k))
  {
    LeaseWellFormed(s.cache, k);
    WithoutNoDup(s.cache.order, k);
    AppendCounts(s.leases, LeaseRec(k, s.cache.slots[k].engine, false, true));
  }

  /** Moving a thread to a phase that is not in the middle of a release or a load, and holds the same
      key lock as before, disturbs nothing. */
  lemma MoveInv(s: State, t: Tid, pc: Pc)
    requires Inv(s) && HasLock(PcOf(s, t)) && (pc.Leaving? || pc.Loading?)
    requires pc.key == PcOf(s, t).key && pc.lock == PcOf(s, t).lock
    requires pc.Loading? ==> pc.key !in s.cache.slots
    ensures Inv(At(s, t, pc))
  {
    LockedPhase(s, t, pc);
  }

  /** A thread that keeps its key lock keeps the lock invariants, whatever it does in between. */
  lemma LockedPhase(s: State, t: Tid, pc: Pc)
    requires ThreadLocksOk(s.pcs, s.keyLocks) && HoldersOk(s.pcs, s.holder) && ReleasersOk(s.pcs, s.leases)
    requires HasLock(PcOf(s, t)) && HasLock(pc)
    requires pc.key == PcOf(s, t).key && pc.lock == PcOf(s, t).lock
    ensures ThreadLocksOk(s.pcs[t := pc], s.keyLocks) && HoldersOk(s.pcs[t := pc], s.holder)
    ensures ReleasersOk(s.pcs[t := pc], s.leases)
    ensures forall slots: map<Key, Slot> ::
      (LoadsOk(s.pcs, slots) && (InLoad(pc) ==> pc.key !in slots) ==> LoadsOk(s.pcs[t := pc], slots))
  {
  }

  lemma AcquireInv(s: State, t: Tid, k: Key)
    requires Inv(s) && PcOf(s, t).Idle?
    ensures Inv(DoAcquire(s, t, k))
  {
    if k !in s.keyLocks {
      var s1 := s.(keyLocks := s.keyLocks[k := s.nextLock], nextLock := s.nextLock + 1);
      assert KeyLocksOk(s1.keyLocks, s1.nextLock);
      assert ThreadLocksOk(s1.pcs, s1.keyLocks);
      StartInv(s1, t, k);
    } else {
      StartInv(s, t, k);
    }
  }

  lemma StartInv(s: State, t: Tid, k: Key)
    requires Inv(s) && PcOf(s, t).Idle? && k in s.keyLocks
    ensures Inv(At(s, t, WantsKey(k, s.keyLocks[k])))
  {
  }

  lemma TakeKeyLockInv(s: State, t: Tid)
    requires Inv(s) && Enabled(s, t, TakeKeyLock)
    ensures Inv(Do(s, t, TakeKeyLock))
  {
  }

  lemma DropKeyLockInv(s: State, t: Tid)
    requires Inv(s) && Enabled(s, t, DropKeyLock)
    ensures Inv(Do(s, t, DropKeyLock))
  {
  }

  lemma LoadReturnsInv(s: State, t: Tid)
    requires Inv(s) && Enabled(s, t, LoadReturns)
    ensures Inv(Do(s, t, LoadReturns))
  {
    var pc := PcOf(s, t);
    LockedPhase(s, t, Loaded(pc.key, pc.lock, s.nextEngine));
    MoreEngines(s, s.loadedFor[s.nextEngine := pc.key], s.warmed);
  }

  /** Engines already made, and warm-ups already run, stay so. */
  lemma MoreEngines(s: State, loadedFor: map<Engine, Key>, warmed: set<Engine>)
    requires ThreadEnginesOk(s.pcs, s.loadedFor, s.warmed)
    requires SlotEnginesOk(s.cache.slots, s.loadedFor, s.warmed) && LeaseEnginesOk(s.leases, s.loadedFor, s.warmed)
    requires s.warmed <= warmed && forall e :: e in s.loadedFor ==> e in loadedFor && loadedFor[e] == s.loadedFor[e]
    ensures ThreadEnginesOk(s.pcs, loadedFor, warmed)
    ensures SlotEnginesOk(s.cache.slots, loadedFor, warmed) && LeaseEnginesOk(s.leases, loadedFor, warmed)
  {
  }

  lemma WarmUpInv(s: State, t: Tid)
    requires Inv(s) && Enabled(s, t, WarmUp)
    ensures Inv(Do(s, t, WarmUp))
  {
    var pc := PcOf(s, t);
    LockedPhase(s, t, Warmed(pc.key, pc.lock, pc.engine));
    MoreEngines(s, s.loadedFor, s.warmed + {pc.engine});
  }

  /** A slot that some counted lease points to has refs > 0, so eviction leaves it alone. */
  lemma CountedSurvive(leases: seq<LeaseRec>, c: Cache, max: nat)
    requires WellFormed(c) && CountsOk(c.slots, leases) && LeasesOk(c.slots, leases)
    ensures var d := Evict(c, max);
      WellFormed(d) && SizeOk(d, max) && CountsOk(d.slots, leases) && LeasesOk(d.slots, leases)
  {
    EvictKeeps(c, max);
    forall i | 0 <= i < |leases| && leases[i].counted
      ensures leases[i].key in Evict(c, max).slots
    {
      assert i in Outstanding(leases, leases[i].key);
    }
  }

  lemma NoneOutstanding(slots: map<Key, Slot>, leases: seq<LeaseRec>, k: Key)
    requires LeasesOk(slots, leases)
    ensures k !in slots ==> Outstanding(leases, k) == {}
  {
  }

  lemma NewSlot(c: Cache, k: Key, engine: Engine)
    requires WellFormed(c) && k !in c.slots
    ensures var q := LeaseLocked(Put(c, k, engine), k); WellFormed(q) && q.slots == c.slots[k := Slot(engine, 1)]
  {
    PutWellFormed(c, k, engine);
    LeaseWellFormed(Put(c, k, engine), k);
  }

  lemma NewCounts(slots: map<Key, Slot>, leases: seq<LeaseRec>, k: Key, engine: Engine)
    requires CountsOk(slots, leases) && LeasesOk(slots, leases) && k !in slots
    ensures var more, ls := slots[k := Slot(engine, 1)], leases + [LeaseRec(k, engine, false, true)];
      CountsOk(more, ls) && LeasesOk(more, ls)
  {
    AppendCounts(leases, LeaseRec(k, engine, false, true));
    NoneOutstanding(slots, leases, k);
  }

  lemma InstallCache(c: Cache, leases: seq<LeaseRec>, k: Key, engine: Engine, max: nat)
    requires WellFormed(c) && CountsOk(c.slots, leases) && LeasesOk(c.slots, leases) && k !in c.slots
    ensures var d := Install(c, k, engine, max); var ls := leases + [LeaseRec(k, engine, false, true)];
      && WellFormed(d) && SizeOk(d, max) && CountsOk(d.slots, ls) && LeasesOk(d.slots, ls)
      && (forall x :: x in d.slots && x != k ==> x in c.slots && d.slots[x] == c.slots[x])
      && k in d.slots && d.slots[k].engine == engine
      && (forall x :: x in c.slots && x !in d.slots ==> Outstanding(ls, x) == {})
  {
    NewSlot(c, k, engine);
    NewCounts(c.slots, leases, k, engine);
    var q := LeaseLocked(Put(c, k, engine), k);
    var ls := leases + [LeaseRec(k, engine, false, true)];
    CountedSurvive(ls, q, max);
    EvictKeeps(q, max);
    forall x | x !in Install(c, k, engine, max).slots ensures Outstanding(ls, x) == {} {
      NoneOutstanding(Install(c, k, engine, max).slots, ls, x);
    }
  }

  lemma InstallInv(s: State, t: Tid)
    requires Inv(s) && Enabled(s, t, InstallEngine)
    ensures Inv(Do(s, t, InstallEngine))
  {
    var pc := PcOf(s, t);
    InstallCache(s.cache, s.leases, pc.key, pc.engine, s.max);
    InstalledInv(s, t, Install(s.cache, pc.key, pc.engine, s.max));
  }

  lemma InstalledInv(s: State, t: Tid, d: Cache)
    requires Inv(s) && PcOf(s, t).Warmed?
    requires var pc := PcOf(s, t); var ls := s.leases + [LeaseRec(pc.key, pc.engine, false, true)];
      && WellFormed(d) && SizeOk(d, s.max) && CountsOk(d.slots, ls) && LeasesOk(d.slots, ls)
      && (forall x :: x in d.slots && x != pc.key ==> x in s.cache.slots && d.slots[x] == s.cache.slots[x])
      && pc.key in d.slots && d.slots[pc.key].engine == pc.engine
    ensures var pc := PcOf(s, t);
      Inv(At(s.(cache := d, leases := s.leases + [LeaseRec(pc.key, pc.engine, false, true)]),
             t, Leaving(pc.key, pc.lock)))
  {
    var pc := PcOf(s, t);
    OneLoader(s, t);
    LockedPhase(s, t, Leaving(pc.key, pc.lock));
    var ls := s.leases + [LeaseRec(pc.key, pc.engine, false, true)];
    assert LoadsOk(s.pcs[t := Leaving(pc.key, pc.lock)], d.slots);
    assert LeaseEnginesOk(ls, s.loadedFor, s.warmed);
    assert ReleasersOk(s.pcs[t := Leaving(pc.key, pc.lock)], ls) && FlagsOk(ls);
  }

  /** Two threads in the load phase of one key would hold one lock. */
  lemma OneLoader(s: State, t: Tid)
    requires Inv(s) && InLoad(PcOf(s, t))
    ensures forall u :: u in s.pcs && InLoad(s.pcs[u]) && s.pcs[u].key == PcOf(s, t).key ==> u == t
  {
  }

  lemma CountDownCache(c: Cache, leases: seq<LeaseRec>, l: nat, max: nat)
    requires WellFormed(c) && CountsOk(c.slots, leases) && LeasesOk(c.slots, leases)
    requires l < |leases| && leases[l].counted
    ensures var d := Release(c, leases[l].key, max); var ls := leases[l := leases[l].(counted := false)];
      && WellFormed(d) && SizeOk(d, max) && CountsOk(d.slots, ls) && LeasesOk(d.slots, ls)
      && (forall x :: x in d.slots ==> x in c.slots && d.slots[x].engine == c.slots[x].engine)
      && (forall x :: x in c.slots && x !in d.slots ==> Outstanding(ls, x) == {})
  {
    var k := leases[l].key;
    var ls := leases[l := leases[l].(counted := false)];
    assert l in Outstanding(leases, k);
    DropCounts(leases, l);
    CountedSurvive(ls, Decrement(c, k), max);
    EvictKeeps(Decrement(c, k), max);
    forall x | x !in Release(c, k, max).slots ensures Outstanding(ls, x) == {} {
      NoneOutstanding(Release(c, k, max).slots, ls, x);
    }
  }

  lemma CountDownInv(s: State, t: Tid)
    requires Inv(s) && Enabled(s, t, CountDown)
    ensures Inv(Do(s, t, CountDown))
  {
    var l := PcOf(s, t).lease;
    CountDownCache(s.cache, s.leases, l, s.max);
    CountedDownInv(s, t, Release(s.cache, s.leases[l].key, s.max));
  }

  lemma CountedDownInv(s: State, t: Tid, d: Cache)
    requires Inv(s) && PcOf(s, t).Releasing?
    requires var l := PcOf(s, t).lease; var ls := s.leases[l := s.leases[l].(counted := false)];
      && WellFormed(d) && SizeOk(d, s.max) && CountsOk(d.slots, ls) && LeasesOk(d.slots, ls)
      && (forall x :: x in d.slots ==> x in s.cache.slots && d.slots[x].engine == s.cache.slots[x].engine)
    ensures var l := PcOf(s, t).lease;
      Inv(At(s.(cache := d, leases := s.leases[l := s.leases[l].(counted := false)]), t, Idle))
  {
    var ls := s.leases[PcOf(s, t).lease := s.leases[PcOf(s, t).lease].(counted := false)];
    ReleaserDone(s.pcs, s.leases, t);
    UnlockedPhase(s, t, Idle);
    SlotsShrink(s, d.slots);
    SameEngines(s.leases, ls, s.loadedFor, s.warmed);
  }

  /** A thread that holds no key lock may take any phase that needs none. */
  lemma UnlockedPhase(s: State, t: Tid, pc: Pc)
    requires ThreadLocksOk(s.pcs, s.keyLocks) && HoldersOk(s.pcs, s.holder)
    requires LoadsOk(s.pcs, s.cache.slots) && ThreadEnginesOk(s.pcs, s.loadedFor, s.warmed)
    requires !HasLock(PcOf(s, t)) && (pc.Idle? || pc.Releasing?)
    ensures ThreadLocksOk(s.pcs[t := pc], s.keyLocks) && HoldersOk(s.pcs[t := pc], s.holder)
    ensures forall slots: map<Key, Slot> :: LoadsOk(s.pcs, slots) ==> LoadsOk(s.pcs[t := pc], slots)
    ensures ThreadEnginesOk(s.pcs[t := pc], s.loadedFor, s.warmed)
  {
  }

  lemma SlotsShrink(s: State, slots: map<Key, Slot>)
    requires LoadsOk(s.pcs, s.cache.slots) && SlotEnginesOk(s.cache.slots, s.loadedFor, s.warmed)
    requires forall x :: x in slots ==> x in s.cache.slots && slots[x].engine == s.cache.slots[x].engine
    ensures LoadsOk(s.pcs, slots) && SlotEnginesOk(slots, s.loadedFor, s.warmed)
  {
  }

  lemma SameEngines(leases: seq<LeaseRec>, ls: seq<LeaseRec>, loadedFor: map<Engine, Key>, warmed: set<Engine>)
    requires LeaseEnginesOk(leases, loadedFor, warmed) && |ls| == |leases|
    requires forall i :: 0 <= i < |ls| ==> ls[i].engine == leases[i].engine && ls[i].key == leases[i].key
    ensures LeaseEnginesOk(ls, loadedFor, warmed)
  {
  }

  lemma ReleaserDone(pcs: map<Tid, Pc>, leases: seq<LeaseRec>, t: Tid)
    requires ReleasersOk(pcs, leases) && FlagsOk(leases) && t in pcs && pcs[t].Releasing?
    ensures var l := pcs[t].lease; var ls := leases[l := leases[l].(counted := false)];
      ReleasersOk(pcs[t := Idle], ls) && FlagsOk(ls)
  {
  }

  lemma MarkInv(s: State, t: Tid, l: nat)
    requires Inv(s) && PcOf(s, t).Idle? && l < |s.leases|
    ensures Inv(DoMarkReleased(s, t, l))
  {
    if !s.leases[l].released {
      var ls := s.leases[l := s.leases[l].(released := true)];
      MarkCounts(s.leases, l);
      UnlockedPhase(s, t, Releasing(l));
      SameEngines(s.leases, ls, s.loadedFor, s.warmed);
      ReleaserStarts(s.pcs, s.leases, t, l);
    }
  }

  lemma ReleaserStarts(pcs: map<Tid, Pc>, leases: seq<LeaseRec>, t: Tid, l: nat)
    requires ReleasersOk(pcs, leases) && FlagsOk(leases) && l < |leases| && !leases[l].released
    ensures var ls := leases[l := leases[l].(released := true)];
      ReleasersOk(pcs[t := Releasing(l)], ls) && FlagsOk(ls)
  {
  }

  lemma StepInv(s: State, t: Tid, a: Action)
    requires Inv(s) && Enabled(s, t, a)
    ensures Inv(Do(s, t, a))
  {
    var pc := PcOf(s, t);
    match a
    case AcquireCached(k) => if k in s.cache.slots { LeaseInv(s, k); }
    case LookUp =>
      if pc.key in s.cache.slots {
        LeaseInv(s, pc.key);
        MoveInv(Lease(s, pc.key), t, Leaving(pc.key, pc.lock));
      } else {
        MoveInv(s, t, Loading(pc.key, pc.lock));
      }
    case InstallEngine => InstallInv(s, t);
    case MarkReleased(l) => MarkInv(s, t, l);
    case CountDown => CountDownInv(s, t);
    case Acquire(k) => AcquireInv(s, t, k);
    case TakeKeyLock => TakeKeyLockInv(s, t);
    case DropKeyLock => DropKeyLockInv(s, t);
    case LoadFails => MoveInv(s, t, Leaving(pc.key, pc.lock));
    case LoadReturns => LoadReturnsInv(s, t);
    case WarmUp => WarmUpInv(s, t);
  }

  // ---- runs ------------------------------------------------------------------------------------

  datatype Move = Move(tid: Tid, action: Action)

  /** `states` is a run of `moves` from an empty cache. */
  ghost predicate Run(max: nat, states: seq<State>, moves: seq<Move>) {
    && |states| == |moves| + 1
    && states[0] == InitState(max)
    && forall i :: 0 <= i < |moves| ==> Steps(states[i], moves[i], states[i + 1])
  }

  ghost predicate Steps(s: State, m: Move, s': State) {
    && WellFormed(s.cache) && Enabled(s, m.tid, m.action)
    && s' == Do(s, m.tid, m.action)
  }

  lemma StepsInv(s: State, m: Move, s': State)
    requires Inv(s) && Steps(s, m, s')
    ensures Inv(s')
  {
    StepInv(s, m.tid, m.action);
  }

  lemma {:induction false} RunInv(max: nat, states: seq<State>, moves: seq<Move>, i: nat)
    requires Run(max, states, moves) && i < |states|
    ensures Inv(states[i])
  {
    if i == 0 {
      InitInv(max);
    } else {
      RunInv(max, states, moves, i - 1);
      StepsInv(states[i - 1], moves[i - 1], states[i]);
    }
  }

  /** The guard in `_release` (slot present, refs > 0) holds whenever it is reached. */
  lemma GuardNeverSkips(s: State, t: Tid)
    requires Inv(s) && PcOf(s, t).Releasing?
    ensures var k := s.leases[PcOf(s, t).lease].key; k in s.cache.slots && s.cache.slots[k].refs > 0
  {
    var l := PcOf(s, t).lease;
    assert l in Outstanding(s.leases, s.leases[l].key);
  }

  /** At every point of every run: no two threads load one model, and a load never overlaps a cached
      engine of its key, so what `acquire` installs overwrites nothing. */
  lemma SingleLoad(max: nat, states: seq<State>, moves: seq<Move>, i: nat, t: Tid, u: Tid)
    requires Run(max, states, moves) && i < |states|
    requires InLoad(PcOf(states[i], t))
    ensures PcOf(states[i], t).key !in states[i].cache.slots
    ensures InLoad(PcOf(states[i], u)) && PcOf(states[i], u).key == PcOf(states[i], t).key ==> t == u
  {
    RunInv(max, states, moves, i);
  }

  /** A cached engine is replaced only by way of an eviction: across any one step its slot keeps its
      engine or disappears, and it disappears only while nobody has a counted lease on it. */
  lemma CachedEngineStays(s: State, t: Tid, a: Action, k: Key)
    requires Inv(s) && Enabled(s, t, a) && k in s.cache.slots
    ensures var s' := Do(s, t, a);
      && (k in s'.cache.slots ==> s'.cache.slots[k].engine == s.cache.slots[k].engine)
      && (k !in s'.cache.slots ==> Outstanding(s'.leases, k) == {})
  {
    var pc := PcOf(s, t);
    if a.InstallEngine? {
      InstallCache(s.cache, s.leases, pc.key, pc.engine, s.max);
    } else if a.CountDown? {
      CountDownCache(s.cache, s.leases, pc.lease, s.max);
    }
  }

  /** Whoever holds a lease not yet released holds exactly the engine in the cache, loaded for that
      very model and warmed up before anyone could lease it. */
  lemma LeaseIsLive(max: nat, states: seq<State>, moves: seq<Move>, i: nat, l: nat)
    requires Run(max, states, moves) && i < |states| && l < |states[i].leases|
    ensures var s := states[i]; var r := s.leases[l];
      && r.engine in s.warmed && r.engine in s.loadedFor && s.loadedFor[r.engine] == r.key
      && (!r.released ==>
            r.key in s.cache.slots && s.cache.slots[r.key].engine == r.engine && s.cache.slots[r.key].refs > 0)
  {
    RunInv(max, states, moves, i);
    if !states[i].leases[l].released { assert l in Outstanding(states[i].leases, states[i].leases[l].key); }
  }

  function AllOutstanding(leases: seq<LeaseRec>): set<nat> {
    set i: nat | i < |leases| && leases[i].counted
  }

  /** One counted lease for every key of `order`. */
  lemma {:induction false} DistinctLeases(order: seq<Key>, leases: seq<LeaseRec>) returns (ls: set<nat>)
    requires NoDup(order) && forall k :: k in order ==> Outstanding(leases, k) != {}
    ensures ls <= AllOutstanding(leases) && |ls| == |order|
    ensures forall l :: l in ls ==> leases[l].key in order
  {
    ls := {};
    if order != [] {
      ls := DistinctLeases(order[1..], leases);
      var l :| l in Outstanding(leases, order[0]);
      assert l !in ls;
      ls := ls + {l};
    }
  }

  lemma {:induction false} SubsetSize(a: set<nat>, b: set<nat>)
    requires a <= b
    ensures |a| <= |b|
  {
    if a != {} {
      var x :| x in a;
      SubsetSize(a - {x}, b - {x});
    }
  }

  /** At every lock-free point the cache holds at most `max_models` entries, or no more than there are
      outstanding leases. */
  lemma SizeBound(max: nat, states: seq<State>, moves: seq<Move>, i: nat)
    requires Run(max, states, moves) && i < |states|
    ensures |states[i].cache.order| <= max || |states[i].cache.order| <= |AllOutstanding(states[i].leases)|
  {
    RunInv(max, states, moves, i);
    RunMax(max, states, moves, i);
    var s := states[i];
    if |s.cache.order| > max {
      forall k | k in s.cache.order ensures Outstanding(s.leases, k) != {} { assert s.cache.slots[k].refs > 0; }
      var ls := DistinctLeases(s.cache.order, s.leases);
      SubsetSize(ls, AllOutstanding(s.leases));
    }
  }

  lemma {:induction false} RunMax(max: nat, states: seq<State>, moves: seq<Move>, i: nat)
    requires Run(max, states, moves) && i < |states|
    ensures states[i].max == max
  {
    if i > 0 {
      RunMax(max, states, moves, i - 1);
      assert Steps(states[i - 1], moves[i - 1], states[i]);
    }
  }

  /** `release()` counts down once however often and from however many threads it is called: the
      number of `_release` calls for a lease is 1 exactly when its use is no longer counted. */
  ghost function CountDowns(states: seq<State>, moves: seq<Move>, l: nat): nat
    requires |states| == |moves| + 1
  {
    if |moves| == 0 then 0 else
      var n := |moves| - 1;
      var here := moves[n].action.CountDown? && PcOf(states[n], moves[n].tid) == Releasing(l);
      CountDowns(states[..|moves|], moves[..n], l) + if here then 1 else 0
  }

  /** A lease's use stops being counted by its own `_release` and by nothing else. */
  lemma CountedUntilCountDown(s: State, t: Tid, a: Action, l: nat)
    requires Inv(s) && Enabled(s, t, a)
    ensures var ls := Do(s, t, a).leases; var here := a.CountDown? && PcOf(s, t) == Releasing(l);
      && |ls| >= |s.leases|
      && (l < |s.leases| ==> ls[l].counted == (s.leases[l].counted && !here))
      && (|s.leases| <= l < |ls| ==> ls[l].counted)
      && (here ==> l < |s.leases| && s.leases[l].counted)
  {
    if a.CountDown? {
    } else if a.InstallEngine? {
    } else if a.MarkReleased? {
    } else if a.LookUp? || a.AcquireCached? {
    }
  }

  lemma {:induction false} ReleasedOnce(max: nat, states: seq<State>, moves: seq<Move>, l: nat)
    requires Run(max, states, moves)
    ensures var s := states[|moves|];
      CountDowns(states, moves, l) == if l < |s.leases| && !s.leases[l].counted then 1 else 0
    decreases |moves|
  {
    if |moves| > 0 {
      var n := |moves| - 1;
      RunPrefix(max, states, moves);
      ReleasedOnce(max, states[..|moves|], moves[..n], l);
      RunInv(max, states, moves, n);
      assert Steps(states[n], moves[n], states[n + 1]);
      CountedUntilCountDown(states[n], moves[n].tid, moves[n].action, l);
    }
  }

  lemma RunPrefix(max: nat, states: seq<State>, moves: seq<Move>)
    requires Run(max, states, moves) && |moves| > 0
    ensures Run(max, states[..|moves|], moves[..|moves| - 1])
  {
    var n := |moves| - 1;
    forall i | 0 <= i < n ensures Steps(states[..|moves|][i], moves[..n][i], states[..|moves|][i + 1]) {
      assert Steps(states[i], moves[i], states[i + 1]);
    }
  }

  // ---- the ordered dictionary is a timestamped LRU, in every run ---------------------------------

  /** The key a step takes a lease on without loading, if it does. */
  function Hit(s: State, t: Tid, a: Action): Option<Key>
    requires Enabled(s, t, a)
  {
    var k := if a.AcquireCached? then Some(a.key) else if a.LookUp? then Some(PcOf(s, t).key) else None;
    if k.Some? && k.value in s.cache.slots then k else None
  }

  /** What one step does to the documented cache: a hit stamps the key as newest, an install stamps it and
      then evicts by oldest lease, a release counts down and then evicts by oldest lease. */
  ghost predicate StampStep(s: State, t: Tid, a: Action, r: Stamped, r': Stamped) {
    && Enabled(s, t, a)
    && match a
       case InstallEngine =>
         EvictsTo(Touch(r, PcOf(s, t).key, Slot(PcOf(s, t).engine, 1)), s.max, r')
       case CountDown =>
         EvictsTo(r.(slots := Decrement(s.cache, s.leases[PcOf(s, t).lease].key).slots), s.max, r')
       case _ =>
         var hit := Hit(s, t, a);
         if hit.Some? then hit.value in r.slots && r' == Touch(r, hit.value, OneMore(r.slots[hit.value])) else r' == r
  }

  lemma CacheAfter(s: State, t: Tid, a: Action)
    requires WellFormed(s.cache) && Enabled(s, t, a) && !a.InstallEngine? && !a.CountDown?
    ensures Do(s, t, a).cache == match Hit(s, t, a) case Some(k) => LeaseLocked(s.cache, k) case None => s.cache
  {
  }

  lemma StepRefines(s: State, t: Tid, a: Action, r: Stamped) returns (r': Stamped)
    requires Inv(s) && Enabled(s, t, a) && Refines(s.cache, r)
    ensures StampStep(s, t, a, r, r') && Refines(Do(s, t, a).cache, r')
  {
    var pc := PcOf(s, t);
    if a.InstallEngine? {
      r' := InstallRefines(s.cache, r, pc.key, pc.engine, s.max);
    } else if a.CountDown? {
      r' := ReleaseRefines(s.cache, r, s.leases[pc.lease].key, s.max);
    } else {
      CacheAfter(s, t, a);
      var hit := Hit(s, t, a);
      r' := r;
      if hit.Some? {
        LeaseRefines(s.cache, r, hit.value);
        r' := Touch(r, hit.value, OneMore(r.slots[hit.value]));
      }
    }
  }

  /** `refs` is the documented cache's run beside the run of the ordered dictionary. */
  ghost predicate RefinedRun(states: seq<State>, moves: seq<Move>, refs: seq<Stamped>)
    decreases |moves|
  {
    && |refs| == |states| == |moves| + 1
    && Refines(states[|moves|].cache, refs[|moves|])
    && if |moves| == 0 then refs[0] == Stamped(map[], map[], 0) else
       var n := |moves| - 1;
       && StampStep(states[n], moves[n].tid, moves[n].action, refs[n], refs[n + 1])
       && RefinedRun(states[..|moves|], moves[..n], refs[..|moves|])
  }

  /** The last step of a run. */
  lemma LastRefines(max: nat, states: seq<State>, moves: seq<Move>, r: Stamped) returns (r': Stamped)
    requires Run(max, states, moves) && |moves| > 0 && Refines(states[|moves| - 1].cache, r)
    ensures StampStep(states[|moves| - 1], moves[|moves| - 1].tid, moves[|moves| - 1].action, r, r')
    ensures Refines(states[|moves|].cache, r')
  {
    var n := |moves| - 1;
    RunInv(max, states, moves, n);
    assert Steps(states[n], moves[n], states[n + 1]);
    r' := StepRefines(states[n], moves[n].tid, moves[n].action, r);
  }

  lemma {:induction false} RunRefines(max: nat, states: seq<State>, moves: seq<Move>) returns (refs: seq<Stamped>)
    requires Run(max, states, moves)
    ensures RefinedRun(states, moves, refs)
    decreases |moves|
  {
    if |moves| == 0 {
      refs := [Stamped(map[], map[], 0)];
    } else {
      var n := |moves| - 1;
      RunPrefix(max, states, moves);
      var before := RunRefines(max, states[..|moves|], moves[..n]);
      assert states[..|moves|][n] == states[n];
      var last := LastRefines(max, states, moves, before[n]);
      refs := before + [last];
      assert refs[..|moves|] == before;
    }
  }

  /** Nobody is ever stuck for good: whenever some thread is inside an operation, some thread inside an
      operation can take its next step (a thread waiting for a key lock waits for one that can run). */
  lemma NoDeadlock(s: State, t: Tid) returns (u: Tid, a: Action)
    requires Inv(s) && !PcOf(s, t).Idle?
    ensures Enabled(s, u, a) && !PcOf(s, u).Idle?
  {
    u := t;
    if PcOf(s, t).WantsKey? && PcOf(s, t).lock in s.holder { u := s.holder[PcOf(s, t).lock]; }
    var pc := PcOf(s, u);
    a := if pc.WantsKey? then TakeKeyLock
         else if pc.HoldsKey? then LookUp
         else if pc.Loading? then LoadFails
         else if pc.Loaded? then WarmUp
         else if pc.Warmed? then InstallEngine
         else if pc.Leaving? then DropKeyLock
         else CountDown;
  }
}

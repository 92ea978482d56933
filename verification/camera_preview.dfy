/**
  * The live camera preview: threads that share one condition variable's lock, one lifecycle lock and a
  * generation counter. Every interleaving of their steps is a run.
  */
module CameraPreview {

  import opened Common

  type Tid = int
  type Device = int

  /**
    * Where a thread stands. Previews carry their device and generation, and how many frames they read
    * after being superseded.
    */
  datatype Pc =
    | Idle
    | Arrived(dev: Device)
    | Entered(dev: Device)
    | Refusing
    | Checking(dev: Device, g: nat)
    | Waiting(dev: Device, g: nat)
    | GivingUp
    | Opened(dev: Device, g: nat)
    | Leaving(dev: Device, g: nat)
    | Headers(dev: Device, g: nat)
    | Leaked(dev: Device, g: nat)
    | Top(dev: Device, g: nat, late: nat)
    | Looking(dev: Device, g: nat, late: nat)
    | Reading(dev: Device, g: nat, late: nat)
    | Closing(dev: Device, g: nat, late: nat)
    | Closed(dev: Device, g: nat)
    | Removing(dev: Device, g: nat)
    | WantsLife
    | HasLife
    | Stopping
    | Working
    | WantsStop
    | Bumping

  datatype State = State(pcs: map<Tid, Pc>, cond: Option<Tid>, life: Option<Tid>, gen: nat, active: map<Device, nat>)

  function PcOf(s: State, t: Tid): Pc { if t in s.pcs then s.pcs[t] else Idle }

  /** Threads between these points hold the condition's lock. */
  predicate UsesCond(pc: Pc) {
    || pc.Entered? || pc.Refusing? || pc.Checking? || pc.GivingUp? || pc.Opened? || pc.Leaving? || pc.Looking?
    || pc.Removing? || pc.Stopping? || pc.Bumping?
  }

  /** And these hold the lifecycle lock; a waiting preview keeps it. */
  predicate UsesLife(pc: Pc) {
    pc.Checking? || pc.Waiting? || pc.GivingUp? || pc.Opened? || pc.HasLife? || pc.Stopping? || pc.Working?
  }

  /** A lifecycle operation, rather than a preview, holds its lock. */
  predicate InLifecycle(pc: Pc) { pc.HasLife? || pc.Stopping? || pc.Working? }

  /** The thread's capture is open; that of a preview whose header write failed may be. */
  predicate HasCapture(pc: Pc) {
    || pc.Opened? || pc.Leaving? || pc.Headers? || pc.Leaked? || pc.Top? || pc.Looking? || pc.Reading? || pc.Closing?
  }

  predicate HasGen(pc: Pc) {
    pc.Checking? || pc.Waiting? || HasCapture(pc) || pc.Closed? || pc.Removing?
  }

  datatype Act =
    | Arrive(t: Tid, dev: Device)
    | ArriveLife(t: Tid)
    | ArriveStop(t: Tid)
    | TakeCond(t: Tid)
    | TryLife(t: Tid)
    | Wait(t: Tid)
    | GiveUp(t: Tid)
    | Open(t: Tid, ok: bool)
    | DropLife(t: Tid)
    | DropCond(t: Tid)
    | SendHeaders(t: Tid, ok: bool)
    | Look(t: Tid, shutdown: bool)
    | Read(t: Tid, ok: bool)
    | ReleaseCapture(t: Tid)
    | Remove(t: Tid)
    | TakeLife(t: Tid)
    | LifeTimeout(t: Tid)
    | Bump(t: Tid)

  /** The point a thread that wants the condition's lock reaches when it gets it. */
  function WithCond(pc: Pc): Option<Pc> {
    match pc
    case Arrived(dev) => Some(Entered(dev))
    case Waiting(dev, g) => Some(Checking(dev, g))
    case Top(dev, g, late) => Some(Looking(dev, g, late))
    case Closed(dev, g) => Some(Removing(dev, g))
    case HasLife => Some(Stopping)
    case WantsStop => Some(Bumping)
    case _ => None
  }

  predicate Enabled(s: State, a: Act) {
    var pc := PcOf(s, a.t);
    match a
    case Arrive(_, _) => pc.Idle?
    case ArriveLife(_) => pc.Idle?
    case ArriveStop(_) => pc.Idle?
    case TakeCond(_) => s.cond.None? && WithCond(pc).Some?
    case TryLife(_) => pc.Entered?
    case Wait(_) => pc.Checking? && s.gen == pc.g && s.active != map[]
    case GiveUp(_) => pc.Checking? && (s.gen != pc.g || s.active != map[])
    case Open(_, _) => pc.Checking? && s.gen == pc.g && s.active == map[]
    case DropLife(_) => pc.GivingUp? || pc.Opened? || pc.HasLife? || pc.Working?
    case DropCond(_) => pc.Refusing? || pc.Leaving?
    case SendHeaders(_, _) => pc.Headers?
    case Look(_, _) => pc.Looking?
    case Read(_, _) => pc.Reading?
    case ReleaseCapture(_) => pc.Closing?
    case Remove(_) => pc.Removing?
    case TakeLife(_) => pc.WantsLife? && s.life.None?
    case LifeTimeout(_) => pc.WantsLife?
    case Bump(_) => pc.Stopping? || pc.Bumping?
  }

  function At(s: State, t: Tid, pc: Pc): State { s.(pcs := s.pcs[t := pc]) }

  function Do(s: State, a: Act): State
    requires Enabled(s, a)
  {
    var pc := PcOf(s, a.t);
    match a
    case Arrive(t, dev) => At(s, t, Arrived(dev))
    case ArriveLife(t) => At(s, t, WantsLife)
    case ArriveStop(t) => At(s, t, WantsStop)
    case TakeCond(t) => At(s, t, WithCond(pc).value).(cond := Some(t))
    case TryLife(t) =>
      if s.life.Some? then At(s, t, Refusing)
      else At(s, t, Checking(pc.dev, s.gen + 1)).(life := Some(t), gen := s.gen + 1)
    case Wait(t) => At(s, t, Waiting(pc.dev, pc.g)).(cond := None)
    case GiveUp(t) => At(s, t, GivingUp)
    case Open(t, ok) =>
      if ok then At(s, t, Opened(pc.dev, pc.g)).(active := s.active[pc.dev := pc.g]) else At(s, t, GivingUp)
    case DropLife(t) =>
      At(s, t, if pc.GivingUp? then Refusing else if pc.Opened? then Leaving(pc.dev, pc.g) else Idle).(life := None)
    case DropCond(t) => At(s, t, if pc.Refusing? then Idle else Headers(pc.dev, pc.g)).(cond := None)
    case SendHeaders(t, ok) => At(s, t, if ok then Top(pc.dev, pc.g, 0) else Leaked(pc.dev, pc.g))
    case Look(t, shutdown) =>
      At(s, t, if !shutdown && s.gen == pc.g then Reading(pc.dev, pc.g, pc.late)
        else Closing(pc.dev, pc.g, pc.late)).(cond := None)
    case Read(t, ok) =>
      var late := pc.late + if s.gen == pc.g then 0 else 1;
      At(s, t, if ok then Top(pc.dev, pc.g, late) else Closing(pc.dev, pc.g, late))
    case ReleaseCapture(t) => At(s, t, Closed(pc.dev, pc.g))
    case Remove(t) =>
      At(s, t, Idle).(cond := None,
                      active := if pc.dev in s.active && s.active[pc.dev] == pc.g then s.active - {pc.dev}
                        else s.active)
    case TakeLife(t) => At(s, t, HasLife).(life := Some(t))
    case LifeTimeout(t) => At(s, t, Idle)
    case Bump(t) => At(s, t, if pc.Stopping? then Working else Idle).(cond := None, gen := s.gen + 1)
  }

  const Init := State(map[], None, None, 0, map[])

  ghost predicate Run(s: State, acts: seq<Act>, u: State)
    decreases |acts|
  {
    if acts == [] then u == s else Enabled(s, acts[0]) && Run(Do(s, acts[0]), acts[1..], u)
  }

  // ---- what every state keeps ----------------------------------------------------------------------------

  ghost predicate CondOk(s: State) { forall t :: UsesCond(PcOf(s, t)) <==> s.cond == Some(t) }

  ghost predicate LifeOk(s: State) { forall t :: UsesLife(PcOf(s, t)) <==> s.life == Some(t) }

  ghost predicate GensOk(s: State) {
    (forall t :: PastGen(s, t)) && (forall t, u :: OwnGen(s, t, u))
  }

  predicate PastGen(s: State, t: Tid) { HasGen(PcOf(s, t)) ==> PcOf(s, t).g <= s.gen }

  predicate OwnGen(s: State, t: Tid, u: Tid) {
    t != u && HasGen(PcOf(s, t)) && HasGen(PcOf(s, u)) ==> PcOf(s, t).g != PcOf(s, u).g
  }

  predicate Registers(pc: Pc) { HasCapture(pc) || pc.Closed? || pc.Removing? }

  /** An open capture is registered, and stays so until its thread removed it; nothing else is registered. */
  ghost predicate ActiveOk(s: State) {
    && (forall t :: Registered(s, t))
    && (forall d, e :: d in s.active && e in s.active ==> d == e)
    && (forall d :: d in s.active ==> Owned(s, d))
  }

  ghost predicate Owned(s: State, d: Device)
    requires d in s.active
  {
    exists t :: Registers(PcOf(s, t)) && PcOf(s, t).dev == d && PcOf(s, t).g == s.active[d]
  }

  predicate LateOk(pc: Pc, gen: nat) {
    && (pc.Top? || pc.Looking? || pc.Closing? ==> pc.late <= 1 && (pc.late == 1 ==> gen != pc.g))
    && (pc.Reading? ==> pc.late == 0)
  }

  ghost predicate LatesOk(s: State) { forall t :: LateOk(PcOf(s, t), s.gen) }

  ghost predicate Inv(s: State) { CondOk(s) && LifeOk(s) && GensOk(s) && ActiveOk(s) && LatesOk(s) }

  lemma StepCond(s: State, a: Act)
    requires CondOk(s) && Enabled(s, a)
    ensures CondOk(Do(s, a))
  {
    var s' := Do(s, a);
    assert UsesCond(PcOf(s, a.t)) <==> s.cond == Some(a.t);
    forall t | t != a.t ensures UsesCond(PcOf(s', t)) <==> s'.cond == Some(t) {
      assert PcOf(s', t) == PcOf(s, t);
    }
  }

  lemma StepLife(s: State, a: Act)
    requires LifeOk(s) && Enabled(s, a)
    ensures LifeOk(Do(s, a))
  {
    var s' := Do(s, a);
    assert UsesLife(PcOf(s, a.t)) <==> s.life == Some(a.t);
    forall t | t != a.t ensures UsesLife(PcOf(s', t)) <==> s'.life == Some(t) {
      assert PcOf(s', t) == PcOf(s, t);
    }
  }

  /** A thread's generation is the one it had, or a new one. */
  lemma GenSteps(s: State, a: Act, t: Tid)
    requires Enabled(s, a) && HasGen(PcOf(Do(s, a), t))
    ensures var s' := Do(s, a);
      || (HasGen(PcOf(s, t)) && PcOf(s', t).g == PcOf(s, t).g)
      || (t == a.t && PcOf(s', t).g == s.gen + 1 == s'.gen)
    ensures Do(s, a).gen >= s.gen
  {
    if t != a.t { assert PcOf(Do(s, a), t) == PcOf(s, t); }
  }

  lemma StepGens(s: State, a: Act)
    requires GensOk(s) && Enabled(s, a)
    ensures GensOk(Do(s, a))
  {
    var s' := Do(s, a);
    forall t ensures PastGen(s', t) {
      assert PastGen(s, t);
      if HasGen(PcOf(s', t)) { GenSteps(s, a, t); }
    }
    forall t, u ensures OwnGen(s', t, u) {
      assert OwnGen(s, t, u) && PastGen(s, t) && PastGen(s, u);
      if HasGen(PcOf(s', t)) && HasGen(PcOf(s', u)) {
        GenSteps(s, a, t);
        GenSteps(s, a, u);
      }
    }
  }

  ghost predicate Registered(s: State, t: Tid) {
    Registers(PcOf(s, t)) ==> PcOf(s, t).dev in s.active && s.active[PcOf(s, t).dev] == PcOf(s, t).g
  }

  lemma RemoveKeepsOthers(s: State, a: Act, t: Tid)
    requires ActiveOk(s) && GensOk(s) && Enabled(s, a) && a.Remove? && t != a.t
    ensures Registered(Do(s, a), t)
  {
    assert PcOf(Do(s, a), t) == PcOf(s, t) && Registered(s, t) && OwnGen(s, t, a.t);
  }

  /** Outside `Open` and `Remove` nothing changes what is registered, and no thread starts to rely on it. */
  lemma PlainKeeps(s: State, a: Act, t: Tid)
    requires ActiveOk(s) && Enabled(s, a) && !a.Open? && !a.Remove?
    ensures Registered(Do(s, a), t) && Do(s, a).active == s.active
  {
    assert Registered(s, t);
    if t != a.t {
      assert PcOf(Do(s, a), t) == PcOf(s, t);
    } else {
      var pc, pc' := PcOf(s, t), PcOf(Do(s, a), t);
      assert Registers(pc') ==> Registers(pc) && pc'.dev == pc.dev && pc'.g == pc.g;
    }
  }

  lemma OpenRegisters(s: State, a: Act, t: Tid)
    requires ActiveOk(s) && Enabled(s, a) && a.Open?
    ensures Registered(Do(s, a), t)
  {
    assert Registered(s, t);
    if t != a.t { assert PcOf(Do(s, a), t) == PcOf(s, t); }
  }

  /** The owner of what stays registered does not stop registering it. */
  lemma OwnerStays(s: State, a: Act, t: Tid)
    requires ActiveOk(s) && Enabled(s, a) && Registers(PcOf(s, t)) && PcOf(s, t).dev in Do(s, a).active
    requires !(a.Open? && a.ok)
    ensures Registers(PcOf(Do(s, a), t)) && PcOf(Do(s, a), t).dev == PcOf(s, t).dev &&
      PcOf(Do(s, a), t).g == PcOf(s, t).g
  {
    assert Registered(s, t);
    if t != a.t { assert PcOf(Do(s, a), t) == PcOf(s, t); }
  }

  /** What stays registered keeps its owner. */
  lemma StaysOwned(s: State, a: Act, d: Device)
    requires ActiveOk(s) && Enabled(s, a) && d in Do(s, a).active
    ensures Owned(Do(s, a), d)
  {
    var s' := Do(s, a);
    if a.Open? && a.ok {
      assert Registers(PcOf(s', a.t)) && PcOf(s', a.t).dev == d;
    } else {
      assert d in s.active && s'.active[d] == s.active[d] && Owned(s, d);
      var t :| Registers(PcOf(s, t)) && PcOf(s, t).dev == d && PcOf(s, t).g == s.active[d];
      OwnerStays(s, a, t);
    }
  }

  lemma StepActive(s: State, a: Act)
    requires ActiveOk(s) && GensOk(s) && Enabled(s, a)
    ensures ActiveOk(Do(s, a))
  {
    var s' := Do(s, a);
    forall t ensures Registered(s', t) {
      if a.Remove? {
        if t != a.t { RemoveKeepsOthers(s, a, t); }
      } else if a.Open? {
        OpenRegisters(s, a, t);
      } else {
        PlainKeeps(s, a, t);
      }
    }
    if !a.Remove? && !a.Open? { PlainKeeps(s, a, a.t); }
    forall d | d in s'.active ensures Owned(s', d) { StaysOwned(s, a, d); }
  }

  lemma StepLate(s: State, a: Act)
    requires LatesOk(s) && GensOk(s) && Enabled(s, a)
    ensures LatesOk(Do(s, a))
  {
    var s' := Do(s, a);
    forall t ensures LateOk(PcOf(s', t), s'.gen) {
      assert LateOk(PcOf(s, t), s.gen) && PastGen(s, t);
      assert t != a.t ==> PcOf(s', t) == PcOf(s, t);
    }
  }

  lemma StepInv(s: State, a: Act)
    requires Inv(s) && Enabled(s, a)
    ensures Inv(Do(s, a))
  {
    StepCond(s, a);
    StepLife(s, a);
    StepGens(s, a);
    StepActive(s, a);
    StepLate(s, a);
  }

  lemma {:induction false} RunInv(s: State, acts: seq<Act>, u: State)
    requires Inv(s) && Run(s, acts, u)
    ensures Inv(u)
    decreases |acts|
  {
    if acts != [] {
      StepInv(s, acts[0]);
      RunInv(Do(s, acts[0]), acts[1..], u);
    }
  }

  // ---- theorems --------------------------------------------------------------------------------------------

  /** In every run at most one capture is open. */
  lemma OneCapture(acts: seq<Act>, s: State, t: Tid, u: Tid)
    requires Run(Init, acts, s) && HasCapture(PcOf(s, t)) && HasCapture(PcOf(s, u))
    ensures t == u
  {
    RunInv(Init, acts, s);
    assert Registered(s, t) && Registered(s, u) && OwnGen(s, t, u);
  }

  /**
    * A capture is opened only once every earlier one was released and deregistered, and by a preview that
    * holds the lifecycle lock itself: no lifecycle operation has it.
    */
  lemma OpensAlone(acts: seq<Act>, s: State, t: Tid)
    requires Run(Init, acts, s) && Enabled(s, Open(t, true))
    ensures forall u :: !HasCapture(PcOf(s, u)) && !InLifecycle(PcOf(s, u))
    ensures HasCapture(PcOf(Do(s, Open(t, true)), t))
  {
    RunInv(Init, acts, s);
    assert s.life == Some(t);
    forall u ensures !HasCapture(PcOf(s, u)) && !InLifecycle(PcOf(s, u)) {
      assert UsesLife(PcOf(s, u)) <==> s.life == Some(u);
      assert Registered(s, u);
    }
  }

  /** A superseded loop reads at most one more frame. */
  lemma OneLateFrame(acts: seq<Act>, s: State, t: Tid)
    requires Run(Init, acts, s)
    ensures PcOf(s, t).Top? || PcOf(s, t).Looking? || PcOf(s, t).Closing? ==> PcOf(s, t).late <= 1
    ensures PcOf(s, t).Reading? ==> PcOf(s, t).late == 0
  {
    RunInv(Init, acts, s);
    assert LateOk(PcOf(s, t), s.gen);
  }

  /** A thread that is on its way. */
  predicate Busy(pc: Pc) { !pc.Idle? && !pc.Leaked? }

  /** The next step of a thread that neither waits for a lock nor is idle. */
  function Next(s: State, t: Tid): Act {
    var pc := PcOf(s, t);
    match pc
    case Entered(_) => TryLife(t)
    case Refusing => DropCond(t)
    case Checking(_, g) => if s.gen == g && s.active == map[] then Open(t, true) else GiveUp(t)
    case GivingUp => DropLife(t)
    case Opened(_, _) => DropLife(t)
    case Leaving(_, _) => DropCond(t)
    case Headers(_, _) => SendHeaders(t, true)
    case Looking(_, _, _) => Look(t, false)
    case Reading(_, _, _) => Read(t, true)
    case Closing(_, _, _) => ReleaseCapture(t)
    case Removing(_, _) => Remove(t)
    case WantsLife => TakeLife(t)
    case Working => DropLife(t)
    case Stopping => Bump(t)
    case Bumping => Bump(t)
    case _ => TakeCond(t)
  }

  lemma CondHolderSteps(s: State, u: Tid)
    requires CondOk(s) && s.cond == Some(u)
    ensures Busy(PcOf(s, u)) && Enabled(s, Next(s, u))
  {
    assert UsesCond(PcOf(s, u));
  }

  lemma LifeHolderSteps(s: State, u: Tid)
    requires CondOk(s) && LifeOk(s) && s.cond == None && s.life == Some(u)
    ensures Busy(PcOf(s, u)) && Enabled(s, Next(s, u))
  {
    assert UsesLife(PcOf(s, u)) && !UsesCond(PcOf(s, u));
  }

  lemma FreeSteps(s: State, t: Tid)
    requires CondOk(s) && s.cond == None && Busy(PcOf(s, t)) && (PcOf(s, t).WantsLife? ==> s.life == None)
    ensures Enabled(s, Next(s, t))
  {
    assert !UsesCond(PcOf(s, t));
  }

  /**
    * No deadlock between the two lock orders: while any thread is on its way, one of the threads on their
    * way can take a step, and without a timeout having to run out for the lifecycle lock.
    */
  lemma NeverStuck(acts: seq<Act>, s: State, t: Tid)
    requires Run(Init, acts, s) && Busy(PcOf(s, t))
    ensures exists u :: Busy(PcOf(s, u)) && Enabled(s, Next(s, u))
  {
    RunInv(Init, acts, s);
    if s.cond.Some? {
      CondHolderSteps(s, s.cond.value);
    } else if PcOf(s, t).WantsLife? && s.life.Some? {
      LifeHolderSteps(s, s.life.value);
    } else {
      FreeSteps(s, t);
    }
  }

  // ---- a failed header write ---------------------------------------------------------------------------------

  predicate Opens(acts: seq<Act>) { exists i :: 0 <= i < |acts| && acts[i].Open? && acts[i].ok }

  lemma LeakStays(s: State, a: Act, t: Tid)
    requires Inv(s) && Enabled(s, a) && PcOf(s, t).Leaked?
    ensures PcOf(Do(s, a), t) == PcOf(s, t) && !a.Open?
  {
    assert Registered(s, t);
  }

  /**
    * When writing the response's headers fails, the preview's entry stays in the registry through every
    * later run, and no preview ever opens a capture again.
    */
  lemma {:induction false} LeakIsForever(s: State, acts: seq<Act>, u: State, t: Tid)
    requires Inv(s) && Run(s, acts, u) && PcOf(s, t).Leaked?
    ensures var pc := PcOf(s, t); pc.dev in u.active && u.active[pc.dev] == pc.g
    ensures !Opens(acts)
    decreases |acts|
  {
    assert Registered(s, t);
    if acts != [] {
      LeakStays(s, acts[0], t);
      StepInv(s, acts[0]);
      LeakIsForever(Do(s, acts[0]), acts[1..], u, t);
      assert forall i :: 0 < i < |acts| ==> acts[i] == acts[1..][i - 1];
    }
  }

  lemma RunBefore(s: State, a: Act, acts: seq<Act>, u: State)
    requires Enabled(s, a) && Run(Do(s, a), acts, u)
    ensures Run(s, [a] + acts, u)
  {
    assert ([a] + acts)[1..] == acts;
  }

  lemma {:induction false} RunThen(s: State, a: seq<Act>, t: State, b: seq<Act>, u: State)
    requires Run(s, a, t) && Run(t, b, u)
    ensures Run(s, a + b, u)
    decreases |a|
  {
    if a == [] {
      assert a + b == b;
    } else {
      assert (a + b)[1..] == a[1..] + b;
      RunThen(Do(s, a[0]), a[1..], t, b, u);
    }
  }

  /** While nothing is open and no lock is held, a preview opens its capture in four steps. */
  lemma OpensWhenFree(s: State, t: Tid) returns (acts: seq<Act>, u: State)
    requires s.cond == None && s.life == None && s.active == map[] && PcOf(s, t).Idle?
    ensures Run(s, acts, u) && Opens(acts) && PcOf(u, t) == Opened(0, s.gen + 1) && u.cond == Some(t) &&
      u.life == Some(t)
  {
    var s1 := Do(s, Arrive(t, 0));
    var s2 := Do(s1, TakeCond(t));
    var s3 := Do(s2, TryLife(t));
    u := Do(s3, Open(t, true));
    acts := [];
    RunBefore(s3, Open(t, true), acts, u);
    acts := [Open(t, true)] + acts;
    RunBefore(s2, TryLife(t), acts, u);
    acts := [TryLife(t)] + acts;
    RunBefore(s1, TakeCond(t), acts, u);
    acts := [TakeCond(t)] + acts;
    RunBefore(s, Arrive(t, 0), acts, u);
    acts := [Arrive(t, 0)] + acts;
    assert acts[3] == Open(t, true);
  }

  /** A header write can fail in a run from the beginning. */
  lemma LeakHappens(t: Tid) returns (acts: seq<Act>, u: State)
    ensures Run(Init, acts, u) && PcOf(u, t).Leaked?
  {
    var open, s1 := OpensWhenFree(Init, t);
    var s2 := Do(s1, DropLife(t));
    var s3 := Do(s2, DropCond(t));
    u := Do(s3, SendHeaders(t, false));
    acts := [];
    RunBefore(s3, SendHeaders(t, false), acts, u);
    acts := [SendHeaders(t, false)] + acts;
    RunBefore(s2, DropCond(t), acts, u);
    acts := [DropCond(t)] + acts;
    RunBefore(s1, DropLife(t), acts, u);
    acts := [DropLife(t)] + acts;
    RunThen(Init, open, s1, acts, u);
    acts := open + acts;
  }

  // ---- letting every thread come to its end ------------------------------------------------------------------

  /** A step that brings a thread nearer to its end: clients hang up, waits for the lifecycle lock time out. */
  function EndStep(s: State, t: Tid): Act {
    var pc := PcOf(s, t);
    match pc
    case Reading(_, _, _) => Read(t, false)
    case WantsLife => LifeTimeout(t)
    case HasLife => DropLife(t)
    case _ => Next(s, t)
  }

  /** How many such steps a thread needs at most. */
  function StepsLeft(pc: Pc): nat {
    match pc
    case Idle => 0
    case Refusing => 1
    case Removing(_, _) => 1
    case Bumping => 1
    case Working => 1
    case WantsLife => 1
    case HasLife => 1
    case GivingUp => 2
    case Closed(_, _) => 2
    case WantsStop => 2
    case Stopping => 2
    case Closing(_, _, _) => 3
    case Reading(_, _, _) => 4
    case Looking(_, _, _) => 5
    case Top(_, _, _) => 6
    case Headers(_, _) => 7
    case Leaving(_, _) => 8
    case Opened(_, _) => 9
    case Checking(_, _) => 10
    case Waiting(_, _) => 11
    case Entered(_) => 11
    case Arrived(_) => 12
    case Leaked(_, _) => 0
  }

  /** No other thread holds the condition's lock. */
  predicate Free(s: State, t: Tid) { s.cond == None || s.cond == Some(t) }

  lemma EndStepWorks(s: State, t: Tid)
    requires CondOk(s) && Free(s, t) && Busy(PcOf(s, t))
    ensures Enabled(s, EndStep(s, t)) && Free(Do(s, EndStep(s, t)), t)
    ensures StepsLeft(PcOf(Do(s, EndStep(s, t)), t)) < StepsLeft(PcOf(s, t)) && !PcOf(Do(s, EndStep(s, t)), t).Leaked?
  {
    assert UsesCond(PcOf(s, t)) <==> s.cond == Some(t);
  }

  lemma OthersStay(s: State, a: Act)
    requires Enabled(s, a)
    ensures forall u :: u != a.t ==> PcOf(Do(s, a), u) == PcOf(s, u)
  {
  }

  /** Left alone, a thread comes to its end. */
  lemma {:induction false} EndOne(s: State, t: Tid) returns (acts: seq<Act>, u: State)
    requires Inv(s) && Free(s, t) && !PcOf(s, t).Leaked?
    ensures Inv(u) && Run(s, acts, u) && PcOf(u, t).Idle? && u.cond == None
    ensures forall o :: o != t ==> PcOf(u, o) == PcOf(s, o)
    decreases StepsLeft(PcOf(s, t))
  {
    assert UsesCond(PcOf(s, t)) <==> s.cond == Some(t);
    if PcOf(s, t).Idle? { return [], s; }
    EndStepWorks(s, t);
    var a := EndStep(s, t);
    StepInv(s, a);
    OthersStay(s, a);
    acts, u := EndOne(Do(s, a), t);
    RunBefore(s, a, acts, u);
    acts := [a] + acts;
  }

  /** The threads on their way. */
  function Under(s: State): set<Tid> { set t | t in s.pcs && !PcOf(s, t).Idle? }

  ghost predicate NoneLeaked(s: State) { forall t :: !PcOf(s, t).Leaked? }

  /** With none leaked, all threads can come to their ends. */
  lemma {:induction false} EndAll(s: State) returns (acts: seq<Act>, u: State)
    requires Inv(s) && NoneLeaked(s)
    ensures Inv(u) && Run(s, acts, u) && forall t :: PcOf(u, t).Idle?
    decreases |Under(s)|
  {
    if Under(s) == {} {
      forall t ensures PcOf(s, t).Idle? { assert t !in Under(s); }
      return [], s;
    }
    var t :| t in Under(s);
    if s.cond.Some? {
      assert UsesCond(PcOf(s, s.cond.value));
      t := s.cond.value;
    }
    var first, s1 := EndOne(s, t);
    forall o ensures !PcOf(s1, o).Leaked? { assert !PcOf(s, o).Leaked?; }
    assert forall o :: o in Under(s1) ==> PcOf(s, o) == PcOf(s1, o);
    assert Under(s1) <= Under(s) - {t};
    Fewer(Under(s1), Under(s), t);
    var rest;
    rest, u := EndAll(s1);
    RunThen(s, first, s1, rest, u);
    acts := first + rest;
  }

  lemma Fewer(a: set<Tid>, b: set<Tid>, t: Tid)
    requires a <= b - {t} && t in b
    ensures |a| < |b|
  {
    var rest := b - {t};
    assert |a| <= |rest| by { assert rest == a + (rest - a); }
  }

  /** When every thread is at its end, no lock is held and nothing is registered. */
  lemma AllEnded(s: State)
    requires Inv(s) && forall t :: PcOf(s, t).Idle?
    ensures s.cond == None && s.life == None && s.active == map[]
  {
    forall t ensures s.cond != Some(t) && s.life != Some(t) {
      assert !UsesCond(PcOf(s, t)) && !UsesLife(PcOf(s, t));
    }
    NoneOrSome(s.cond);
    NoneOrSome(s.life);
    forall d | d in s.active ensures !Owned(s, d) { EndedOwnsNothing(s, d); }
    assert forall d :: d !in s.active;
    assert s.active == map[];
  }

  lemma NoneOrSome(o: Option<Tid>)
    ensures o.None? || o == Some(o.value)
  {
  }

  lemma EndedOwnsNothing(s: State, d: Device)
    requires d in s.active && forall t :: PcOf(s, t).Idle?
    ensures !Owned(s, d)
  {
  }

  lemma OpensAgain(s: State) returns (more: seq<Act>, u: State)
    requires Inv(s) && NoneLeaked(s)
    ensures Run(s, more, u) && Opens(more)
  {
    var ends, ended := EndAll(s);
    AllEnded(ended);
    var open;
    open, u := OpensWhenFree(ended, 0);
    RunThen(s, ends, ended, open, u);
    more := ends + open;
    var i :| 0 <= i < |open| && open[i].Open? && open[i].ok;
    assert more[|ends| + i] == open[i];
  }

  /** Some preview can still open a capture. */
  ghost predicate CanOpen(s: State) { exists more, u :: Run(s, more, u) && Opens(more) }

  /** In any state that can be reached, a capture can still be opened exactly while no preview has leaked. */
  lemma OpensAgainIff(acts: seq<Act>, s: State)
    requires Run(Init, acts, s)
    ensures CanOpen(s) <==> NoneLeaked(s)
  {
    RunInv(Init, acts, s);
    if NoneLeaked(s) {
      var more, u := OpensAgain(s);
      assert CanOpen(s);
    } else {
      var t: Tid :| PcOf(s, t).Leaked?;
      forall more, u | Run(s, more, u) ensures !Opens(more) { LeakIsForever(s, more, u, t); }
    }
  }
}

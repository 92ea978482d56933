/** What a Jetson agent process has done for the owners of its lock, and what each history allows next. */
module JetsonTrace {

  import opened Common

  type Owner = int

  /** `Recorded` and `Cleared` are assignments to the recorded owner. */
  datatype Event =
    | Recorded(owner: Owner)
    | Cleared
    | Attempt(owner: Owner)
    | Failed(owner: Owner)
    | ProxyUp(owner: Owner)
    | Claimed(owner: Owner)
    | ProxyDown
    | StackDown
    | Wiped
    | Freed(owner: Owner)
    | Reset

  type Trace = seq<Event>

  const CLAIM_RETRY_LIMIT := 3

  // ---- readings of a history -----------------------------------------------------------------------------

  /** Failing bring-ups for the owner since the counters were last reset, or the owner last succeeded. */
  function Strikes(t: Trace, owner: Owner): nat {
    if t == [] then 0
    else
      var e := t[|t| - 1];
      if e == Reset || e == Claimed(owner) then 0
      else Strikes(t[..|t| - 1], owner) + if e == Failed(owner) then 1 else 0
  }

  predicate ProxyRuns(t: Trace) {
    if t == [] then false
    else
      var e := t[|t| - 1];
      e.ProxyUp? || (!e.ProxyDown? && ProxyRuns(t[..|t| - 1]))
  }

  /**
    * How much of the release is still to be done for the last claim: the proxy's stop, then the stack's
    * end, then the wipe.
    */
  function Owed(t: Trace): nat {
    if t == [] then 0
    else
      var e, before := t[|t| - 1], Owed(t[..|t| - 1]);
      if e.Claimed? then 3
      else if (e == ProxyDown && before == 3) || (e == StackDown && before == 2) || (e == Wiped &&
        before == 1) then before - 1
      else before
  }

  function OwnerNext(was: Option<Owner>, e: Event): Option<Owner> {
    if e.Recorded? then Some(e.owner) else if e.Cleared? then None else was
  }

  /** The owner recorded. */
  function OwnerIn(t: Trace): Option<Owner> {
    if t == [] then None else OwnerNext(OwnerIn(t[..|t| - 1]), t[|t| - 1])
  }

  function ClaimantNext(was: Option<Owner>, e: Event): Option<Owner> {
    if e.Claimed? then Some(e.owner) else if e.Recorded? || e.Cleared? then None else was
  }

  /** The owner who has claimed successfully since being recorded. */
  function ClaimantIn(t: Trace): Option<Owner> {
    if t == [] then None else ClaimantNext(ClaimantIn(t[..|t| - 1]), t[|t| - 1])
  }

  /** The proxy came up, and its owner's claim does not count yet. */
  predicate ComingUp(t: Trace) {
    if t == [] then false
    else
      var e := t[|t| - 1];
      e.ProxyUp? || (!e.Claimed? && !e.ProxyDown? && !e.Cleared? && ComingUp(t[..|t| - 1]))
  }

  /** The owner was cleared while the proxy ran, and the proxy has not been stopped since. */
  predicate ClearedUp(t: Trace) {
    if t == [] then false
    else
      var e := t[|t| - 1];
      (e.Cleared? && ProxyRuns(t[..|t| - 1])) || (!e.Cleared? && !e.ProxyDown? && ClearedUp(t[..|t| - 1]))
  }

  // ---- what a history allows -------------------------------------------------------------------------------

  predicate EndsWith(t: Trace, e: Event) { t != [] && t[|t| - 1] == e }

  predicate Allowed(t: Trace, e: Event) {
    match e
    case Recorded(_) => !ProxyRuns(t)
    case Attempt(owner) => EndsWith(t, Recorded(owner)) && Strikes(t, owner) < CLAIM_RETRY_LIMIT &&
      Owed(t) == 0 && !ProxyRuns(t)
    case Failed(owner) => EndsWith(t, Attempt(owner))
    case ProxyUp(owner) => EndsWith(t, Attempt(owner))
    case Claimed(owner) => EndsWith(t, ProxyUp(owner))
    case _ => true
  }

  predicate Safe(t: Trace) {
    t == [] || (Safe(t[..|t| - 1]) && Allowed(t[..|t| - 1], t[|t| - 1]))
  }

  function StrikesNext(strikes: nat, e: Event, owner: Owner): nat {
    if e == Reset || e == Claimed(owner) then 0 else strikes + if e == Failed(owner) then 1 else 0
  }

  lemma Next(t: Trace, e: Event)
    ensures Safe(t + [e]) <==> Safe(t) && Allowed(t, e)
    ensures forall owner :: Strikes(t + [e], owner) == StrikesNext(Strikes(t, owner), e, owner)
    ensures ProxyRuns(t + [e]) <==> e.ProxyUp? || (!e.ProxyDown? && ProxyRuns(t))
    ensures Owed(t + [e]) ==
      if e.Claimed? then 3
      else if (e == ProxyDown && Owed(t) == 3) || (e == StackDown && Owed(t) == 2) || (e == Wiped &&
        Owed(t) == 1) then Owed(t) - 1
      else Owed(t)
    ensures OwnerIn(t + [e]) == OwnerNext(OwnerIn(t), e) && ClaimantIn(t + [e]) == ClaimantNext(ClaimantIn(t), e)
  {
    assert (t + [e])[..|t|] == t;
  }

  // ---- what safe histories guarantee -----------------------------------------------------------------------

  lemma {:induction false} SafePrefix(t: Trace, k: nat)
    requires Safe(t) && k < |t|
    ensures Safe(t[..k]) && Allowed(t[..k], t[k])
  {
    if k < |t| - 1 {
      SafePrefix(t[..|t| - 1], k);
      assert t[..|t| - 1][..k] == t[..k];
    }
  }

  /** Between two resets an owner's bring-up fails three times at most. */
  lemma {:induction false} FewStrikes(t: Trace, owner: Owner)
    requires Safe(t)
    ensures Strikes(t, owner) <= CLAIM_RETRY_LIMIT
  {
    if t != [] {
      var before := t[..|t| - 1];
      FewStrikes(before, owner);
      if t[|t| - 1] == Failed(owner) {
        var n := |before| - 1;
        SafePrefix(before, n);
        assert before == before[..n] + [Attempt(owner)];
        Next(before[..n], Attempt(owner));
      }
    }
  }

  /** Where the steps of the release that are no longer owed were done, after the claim. */
  lemma {:induction false} DoneAt(t: Trace, i: nat) returns (a: nat, b: nat, c: nat)
    requires i < |t| && t[i].Claimed?
    ensures Owed(t) <= 3
    ensures Owed(t) <= 2 ==> i < a < |t| && t[a] == ProxyDown
    ensures Owed(t) <= 1 ==> i < a < b < |t| && t[b] == StackDown
    ensures Owed(t) == 0 ==> i < a < b < c < |t| && t[c] == Wiped
    decreases |t|
  {
    var n := |t| - 1;
    a, b, c := 0, 0, 0;
    if i < n {
      a, b, c := DoneAt(t[..n], i);
      if t[n].Claimed? {
      } else if Owed(t) < Owed(t[..n]) {
        if Owed(t) == 2 { a := n; } else if Owed(t) == 1 { b := n; } else { c := n; }
      }
    }
  }

  /** The steps of one release, in their order, between two points of a history. */
  ghost predicate ReleasedWithin(t: Trace, i: nat, j: nat) {
    exists a, b, c :: i < a < b < c < j <= |t| && t[a] == ProxyDown && t[b] == StackDown && t[c] == Wiped
  }

  /** Between a successful claim and any later bring-up: proxy stopped, stack down, volumes wiped. */
  lemma WipedBetween(t: Trace, i: nat, j: nat)
    requires Safe(t) && i < j < |t| && t[i].Claimed? && t[j].Attempt?
    ensures ReleasedWithin(t, i, j)
  {
    SafePrefix(t, j);
    var a, b, c := DoneAt(t[..j], i);
    assert t[a] == ProxyDown && t[b] == StackDown && t[c] == Wiped;
  }

  /** A bring-up is made for the owner just recorded, and nobody has claimed before it ends. */
  lemma AttemptFor(t: Trace, owner: Owner)
    requires Safe(t) && EndsWith(t, Attempt(owner))
    ensures OwnerIn(t) == Some(owner) && ClaimantIn(t) == None && !ProxyRuns(t)
  {
    var before := t[..|t| - 1];
    assert before == before[..|before| - 1] + [Recorded(owner)];
    Next(before[..|before| - 1], Recorded(owner));
  }

  lemma ProxyUpFor(t: Trace, owner: Owner)
    requires Safe(t) && EndsWith(t, ProxyUp(owner))
    ensures OwnerIn(t) == Some(owner) && ClaimantIn(t) == None
    ensures Safe(t[..|t| - 1]) && EndsWith(t[..|t| - 1], Attempt(owner)) && !ProxyRuns(t[..|t| - 1])
  {
    AttemptFor(t[..|t| - 1], owner);
  }

  /** Who has claimed is recorded. */
  lemma {:induction false} ClaimantRecorded(t: Trace)
    requires Safe(t)
    ensures ClaimantIn(t).Some? ==> OwnerIn(t) == ClaimantIn(t)
  {
    if t != [] {
      ClaimantRecorded(t[..|t| - 1]);
      if t[|t| - 1].Claimed? { ProxyUpFor(t[..|t| - 1], t[|t| - 1].owner); }
    }
  }

  /** When the proxy may run without a claimed owner recorded. */
  predicate ProxyRight(t: Trace) {
    && (ProxyRuns(t) && ClaimantIn(t) == None <==> ComingUp(t) || ClearedUp(t))
    && (ClaimantIn(t).Some? ==> OwnerIn(t) == ClaimantIn(t))
  }

  /**
    * The proxy runs while no successfully claimed owner is recorded exactly while it is coming up, before
    * its owner's claim counts, and between the clearing of the owner and its stop.
    */
  lemma {:induction false} ProxyOwned(t: Trace)
    requires Safe(t)
    ensures ProxyRight(t)
  {
    ClaimantRecorded(t);
    if t != [] {
      var before, e := t[..|t| - 1], t[|t| - 1];
      ProxyOwned(before);
      match e
      case Failed(owner) => AttemptFor(before, owner);
      case ProxyUp(owner) => ProxyUpFor(t, owner);
      case Claimed(owner) =>
        ProxyUpFor(before, owner);
        ProxyOwned(before[..|before| - 1]);
      case _ =>
    }
  }

  // ---- an agent's own book-keeping ---------------------------------------------------------------------------

  function CountIn(failed: map<Owner, nat>, owner: Owner): nat { if owner in failed then failed[owner] else 0 }

  /** The counters, the proxy and the owner an agent keeps are those of its history. */
  ghost predicate Coupled(t: Trace, failed: map<Owner, nat>, proxy: bool, owner: Option<Owner>) {
    Safe(t) && (forall o :: CountIn(failed, o) == Strikes(t, o)) && (proxy <==> ProxyRuns(t)) && owner == OwnerIn(t)
  }

  /** How an event changes the counters. */
  function CountersAfter(failed: map<Owner, nat>, e: Event): map<Owner, nat> {
    match e
    case Reset => map[]
    case Claimed(owner) => failed - {owner}
    case Failed(owner) => failed[owner := CountIn(failed, owner) + 1]
    case _ => failed
  }

  function ProxyAfter(proxy: bool, e: Event): bool { e.ProxyUp? || (!e.ProxyDown? && proxy) }

  lemma CoupledNext(t: Trace, failed: map<Owner, nat>, proxy: bool, owner: Option<Owner>, e: Event)
    requires Coupled(t, failed, proxy, owner) && Allowed(t, e)
    ensures Coupled(t + [e], CountersAfter(failed, e), ProxyAfter(proxy, e), OwnerNext(owner, e))
  {
    Next(t, e);
    forall o ensures CountIn(CountersAfter(failed, e), o) == Strikes(t + [e], o) {
      assert CountIn(failed, o) == Strikes(t, o);
    }
  }

  /** What is promised of every moment of a process. */
  ghost predicate HistoryRight(t: Trace) {
    && (forall k :: 0 <= k <= |t| ==> ProxyRight(t[..k]))
    && (forall k, owner :: 0 <= k <= |t| ==> Strikes(t[..k], owner) <= CLAIM_RETRY_LIMIT)
    && (forall i, j :: 0 <= i < j < |t| && t[i].Claimed? && t[j].Attempt? ==> ReleasedWithin(t, i, j))
  }

  lemma SafeHistory(t: Trace)
    requires Safe(t)
    ensures HistoryRight(t)
  {
    assert t[..|t|] == t;
    forall k | 0 <= k <= |t| ensures ProxyRight(t[..k]) {
      if k < |t| { SafePrefix(t, k); }
      ProxyOwned(t[..k]);
    }
    forall k, owner | 0 <= k <= |t| ensures Strikes(t[..k], owner) <= CLAIM_RETRY_LIMIT {
      if k < |t| { SafePrefix(t, k); }
      FewStrikes(t[..k], owner);
    }
    forall i, j | 0 <= i < j < |t| && t[i].Claimed? && t[j].Attempt? ensures ReleasedWithin(t, i, j) {
      WipedBetween(t, i, j);
    }
  }

  lemma OwedNext(t: Trace, e: Event)
    requires !e.Claimed?
    ensures Owed(t + [e]) <= Owed(t)
    ensures Owed(t + [e]) ==
      if (e == ProxyDown && Owed(t) == 3) || (e == StackDown && Owed(t) == 2) || (e == Wiped &&
        Owed(t) == 1) then Owed(t) - 1
      else Owed(t)
  {
    Next(t, e);
  }

  lemma {:induction false} OwedBound(t: Trace)
    ensures Owed(t) <= 3
  {
    if t != [] { OwedBound(t[..|t| - 1]); }
  }

  /** A whole release leaves nothing owed. */
  lemma ReleasePays(t: Trace)
    ensures Owed(t + [ProxyDown] + [StackDown] + [Wiped]) == 0
  {
    OwedBound(t);
    OwedNext(t, ProxyDown);
    OwedNext(t + [ProxyDown], StackDown);
    OwedNext(t + [ProxyDown] + [StackDown], Wiped);
  }
}

/** The Jetson agent's ownership state machine, driven by whatever the heartbeat answers. */
module JetsonAgents {

  import opened Common
  import opened JetsonTrace

  datatype Phase = PairedIdle | Claiming | Ready | Wiping

  /** What a transition ended with: an exception it raised ends the process. */
  datatype Ending = Returned | Raised

  class JetsonAgent {
    var currentOwner: Option<Owner>
    var phase: Phase
    var proxy: bool
    var failedClaims: map<Owner, nat>
    ghost var trace: Trace

    /** The counters, the proxy and the recorded owner are those of the history. */
    ghost predicate Valid()
      reads this
    {
      Coupled(trace, failedClaims, proxy, currentOwner)
    }

    /**
      * Between two rounds of the loop: an owner is recorded exactly while the proxy runs, and that
      * owner has claimed successfully; without one, nothing of an earlier session is left.
      */
    ghost predicate AtRest()
      reads this
    {
      && Valid()
      && (currentOwner.Some? <==> proxy)
      && (proxy ==> phase == Ready && ClaimantIn(trace) == currentOwner)
      && (!proxy ==> phase == PairedIdle && Owed(trace) == 0)
    }

    constructor ()
      ensures AtRest() && currentOwner == None && trace == []
    {
      currentOwner := None;
      phase := PairedIdle;
      proxy := false;
      failedClaims := map[];
      trace := [];
    }

    /** Notes an event, the counters, the proxy and the owner having been set for it. */
    ghost method Note(was: Trace, e: Event, counters: map<Owner, nat>, running: bool, owner: Option<Owner>)
      requires Coupled(was, counters, running, owner) && Allowed(was, e) && trace == was
      requires failedClaims == CountersAfter(counters, e) && proxy == ProxyAfter(running, e) &&
        currentOwner == OwnerNext(owner, e)
      modifies `trace
      ensures Valid() && trace == was + [e]
      ensures !e.Claimed? ==> Owed(trace) <= Owed(was)
    {
      CoupledNext(was, counters, running, owner, e);
      if !e.Claimed? { OwedNext(was, e); }
      trace := trace + [e];
    }

    method RecordOwner(owner: Owner)
      requires Valid() && !proxy
      modifies `currentOwner, `trace
      ensures Valid() && currentOwner == Some(owner) && trace == old(trace) + [Recorded(owner)] &&
        Owed(trace) <= Owed(old(trace))
    {
      ghost var was := currentOwner;
      currentOwner := Some(owner);
      Note(trace, Recorded(owner), failedClaims, proxy, was);
    }

    method ClearOwner()
      requires Valid()
      modifies `currentOwner, `trace
      ensures Valid() && currentOwner == None && trace == old(trace) + [Cleared] && Owed(trace) <= Owed(old(trace))
    {
      ghost var was := currentOwner;
      currentOwner := None;
      Note(trace, Cleared, failedClaims, proxy, was);
    }

    method StopProxy() returns (r: Ending)
      requires Valid()
      modifies `proxy, `trace
      ensures Valid() && !proxy && trace == old(trace) + [ProxyDown] && Owed(trace) <= Owed(old(trace))
    {
      ghost var running := proxy;
      proxy := false;
      Note(trace, ProxyDown, failedClaims, running, currentOwner);
      var stuck: bool := *;
      r := if stuck then Raised else Returned;
    }

    method BringDownStack() returns (r: Ending)
      requires Valid()
      modifies `trace
      ensures Valid() && Owed(trace) <= Owed(old(trace))
      ensures trace == if r.Returned? then old(trace) + [StackDown] else old(trace)
    {
      var fails: bool := *;
      if fails { return Raised; }
      Note(trace, StackDown, failedClaims, proxy, currentOwner);
      r := Returned;
    }

    method WipeVolumes() returns (r: Ending)
      requires Valid()
      modifies `trace
      ensures Valid() && trace == if r.Returned? then old(trace) + [Wiped] else old(trace)
    {
      var fails: bool := *;
      if fails { return Raised; }
      Note(trace, Wiped, failedClaims, proxy, currentOwner);
      r := Returned;
    }

    /** `_failed_claim_attempts.clear()`. */
    method ClearCounters()
      requires Valid()
      modifies `failedClaims, `trace
      ensures Valid() && trace == old(trace) + [Reset] && failedClaims == map[]
      ensures Owed(trace) <= Owed(old(trace))
    {
      ghost var counters := failedClaims;
      failedClaims := map[];
      Note(trace, Reset, counters, proxy, currentOwner);
    }

    /** Asks the cloud API, as well as it can, to free the lock. */
    method FreeLock(owner: Owner)
      requires Valid()
      modifies `trace
      ensures Valid() && trace == old(trace) + [Freed(owner)] && Owed(trace) <= Owed(old(trace))
    {
      Note(trace, Freed(owner), failedClaims, proxy, currentOwner);
    }

    /** Stack, safe home and proxy; any of them may fail, only the last starts the proxy. */
    method BringUp(owner: Owner) returns (ok: bool)
      requires Valid() && !proxy && Owed(trace) == 0 && CountIn(failedClaims, owner) < CLAIM_RETRY_LIMIT
      requires EndsWith(trace, Recorded(owner))
      modifies `proxy, `trace
      ensures Valid() && proxy == ok && EndsWith(trace, if ok then ProxyUp(owner) else Attempt(owner))
      ensures Owed(trace) == 0 && old(trace) <= trace
    {
      assert CountIn(failedClaims, owner) == Strikes(trace, owner);
      Note(trace, Attempt(owner), failedClaims, proxy, currentOwner);
      var fails: bool := *;
      ok := !fails;
      if ok {
        proxy := true;
        Note(trace, ProxyUp(owner), failedClaims, false, currentOwner);
      }
    }

    method TransitionToClaimed(owner: Owner)
      requires Valid() && !proxy && Owed(trace) == 0 && EndsWith(trace, Recorded(owner)) && currentOwner == Some(owner)
      modifies this
      ensures AtRest() && (currentOwner == Some(owner) || currentOwner == None) && old(trace) <= trace
    {
      var priorFailures := CountIn(failedClaims, owner);
      if priorFailures >= CLAIM_RETRY_LIMIT {
        FreeLock(owner);
        ClearOwner();
        phase := PairedIdle;
        return;
      }
      phase := Claiming;
      var ok := BringUp(owner);
      if ok {
        phase := Ready;
        ghost var counters := failedClaims;
        failedClaims := failedClaims - {owner};
        Next(trace, Claimed(owner));
        Note(trace, Claimed(owner), counters, proxy, currentOwner);
      } else {
        Fail(owner, priorFailures);
      }
    }

    /** Best effort: the stack is not brought down when stopping the proxy raises. */
    method TearDown()
      requires Valid()
      modifies `proxy, `trace
      ensures Valid() && !proxy && Owed(trace) <= Owed(old(trace)) && old(trace) <= trace
    {
      var r := StopProxy();
      if r.Returned? { r := BringDownStack(); }
    }

    /** `_failed_claim_attempts[owner_id] = prior_failures + 1`. */
    method CountFailure(owner: Owner, priorFailures: nat)
      requires Valid() && EndsWith(trace, Attempt(owner)) && priorFailures == CountIn(failedClaims, owner)
      modifies `failedClaims, `trace
      ensures Valid() && trace == old(trace) + [Failed(owner)] && Owed(trace) <= Owed(old(trace))
      ensures failedClaims == old(failedClaims)[owner := priorFailures + 1]
    {
      ghost var counters := failedClaims;
      failedClaims := failedClaims[owner := priorFailures + 1];
      Note(trace, Failed(owner), counters, proxy, currentOwner);
    }

    /** The counter goes up, what was brought up is torn down as far as it goes, and the lock is freed. */
    method Fail(owner: Owner, priorFailures: nat)
      requires Valid() && !proxy && EndsWith(trace, Attempt(owner)) && Owed(trace) == 0
      requires priorFailures == CountIn(failedClaims, owner)
      modifies this
      ensures AtRest() && currentOwner == None && old(trace) <= trace
    {
      CountFailure(owner, priorFailures);
      TearDown();
      FreeLock(owner);
      ClearOwner();
      phase := PairedIdle;
    }

    method TransitionToReleased() returns (r: Ending)
      requires Valid()
      modifies `phase, `proxy, `trace
      ensures Valid() && !proxy && phase == PairedIdle
      ensures old(trace) <= trace
      ensures r.Returned? ==> trace == old(trace) + [ProxyDown] + [StackDown] + [Wiped] && Owed(trace) == 0
    {
      phase := Wiping;
      ReleasePays(trace);
      r := StopProxy();
      if r.Returned? {
        r := BringDownStack();
        if r.Returned? { r := WipeVolumes(); }
      }
      phase := PairedIdle;
    }

    // ---- the loop ------------------------------------------------------------------------------------

    /** One round: a heartbeat, and what its answer calls for. An exception ends the process. */
    method Round(ok: bool, newOwner: Option<Owner>) returns (r: Ending)
      requires AtRest()
      modifies this
      ensures r.Returned? ==> AtRest()
      ensures HistoryRight(trace)
      ensures r.Raised? ==> Valid() && !proxy && ok
      ensures !ok ==> unchanged(this)
      ensures ok && newOwner == old(currentOwner) && newOwner.Some? ==> unchanged(this)
      ensures r.Returned? && ok && newOwner.None? ==>
        currentOwner == None && !proxy && Owed(trace) == 0 && failedClaims == map[]
      ensures r.Returned? && ok && newOwner.Some? ==> currentOwner == newOwner || (currentOwner == None && !proxy)
      ensures r.Returned? && ok && old(currentOwner).Some? && newOwner != old(currentOwner) ==>
        exists k :: |old(trace)| <= k <= |trace| - 3 && Releases(trace, k)
    {
      r := Returned;
      if ok {
        if newOwner.Some? && newOwner != currentOwner {
          if currentOwner.None? {
            RecordOwner(newOwner.value);
            TransitionToClaimed(newOwner.value);
          } else {
            r := ChangeOwner(newOwner.value);
          }
        } else if newOwner.None? {
          ghost var k := |trace| + 2;
          r := DropOwner();
          assert r.Returned? && old(currentOwner).Some? ==> Releases(trace, k);
        }
      }
      SafeHistory(trace);
    }

    /** From one owner to another: everything of the first is released before the second is tried. */
    method ChangeOwner(newOwner: Owner) returns (r: Ending)
      requires AtRest() && currentOwner.Some?
      modifies this
      ensures r.Returned? ==> AtRest() && (currentOwner == Some(newOwner) || currentOwner == None)
      ensures r.Raised? ==> Valid() && !proxy
      ensures r.Returned? ==> exists k :: |old(trace)| <= k <= |trace| - 3 && Releases(trace, k)
    {
      ClearCounters();
      ghost var k := |trace|;
      r := TransitionToReleased();
      if r.Raised? { return; }
      assert Releases(trace, k);
      RecordOwner(newOwner);
      TransitionToClaimed(newOwner);
      assert Releases(trace, k);
    }

    /**
      * The owner is cleared before the proxy is stopped: in between the proxy runs though nobody is
      * recorded.
      */
    method DropOwner() returns (r: Ending)
      requires AtRest()
      modifies this
      ensures r.Returned? ==> AtRest() && currentOwner == None && failedClaims == map[]
      ensures r.Raised? ==> Valid() && !proxy
      ensures var cleared := old(trace) + [Reset] + [Cleared];
        if old(currentOwner).None? then trace == old(trace) + [Reset]
        else cleared <= trace && ProxyRuns(cleared) && OwnerIn(cleared) == None
             && (r.Returned? ==> trace == cleared + [ProxyDown] + [StackDown] + [Wiped])
    {
      r := Returned;
      ClearCounters();
      if currentOwner.Some? {
        ClearOwner();
        r := TransitionToReleased();
      }
    }

    /** What `main` does in the end, for the owner recorded then. */
    method Shutdown() returns (r: Ending)
      requires Valid() && (currentOwner.None? ==> !proxy)
      modifies this
      ensures Valid() && !proxy
    {
      r := Returned;
      if currentOwner.Some? {
        FreeLock(currentOwner.value);
        r := StopProxy();
        if r.Returned? { r := BringDownStack(); }
      }
    }

    /**
      * A whole process: any number of heartbeats with any answers, then the end. At every moment of it the
      * proxy runs without a claimed owner only while coming up and between a clearing and its stop, nobody
      * has more than three strikes, and all was released before a bring-up.
      */
    method Serve(rounds: nat)
      requires AtRest() && trace == []
      modifies this
      ensures Valid() && !proxy && HistoryRight(trace)
    {
      var r := Returned;
      for i := 0 to rounds
        invariant if r.Returned? then AtRest() else Valid() && !proxy
      {
        if r.Returned? {
          var ok: bool, newOwner: Option<Owner> := *, *;
          r := Round(ok, newOwner);
        }
      }
      r := Shutdown();
      SafeHistory(trace);
    }
  }

  /** A whole release stands at `k`. */
  predicate Releases(t: Trace, k: nat) {
    k + 2 < |t| && t[k] == ProxyDown && t[k + 1] == StackDown && t[k + 2] == Wiped
  }
}

/** One session's entry in the container: the background session check and the gate every observation
    passes. Handlers run on one event loop, so each method below is atomic. */
module SessionChecks {
  import opened Common

  const FAIL_CLOSED_S := 30.0
  const RETRY_S := 2.0

  datatype Verdict = Auth | Ended(reason: Option<string>) | Replaced

  /** How a check ends: answered, failed in transport, answered with a verdict, or cancelled. */
  datatype Outcome = Ok | Failed | Denied(verdict: Verdict) | Cancelled

  datatype Task = NoTask | Running | Done

  datatype Answer = Admitted | Refused(verdict: Verdict) | Unavailable

  datatype EntryState = EntryState(
    checkedAt: real,
    failingSince: Option<real>,
    fails: nat,
    task: Task,
    denied: Option<Verdict>)

  function NewEntry(now: real): EntryState { EntryState(now, None, 0, NoTask, None) }

  /** `_check`, from the backend's answer to its end. */
  function Finish(e: EntryState, outcome: Outcome, now: real, ttl: real): EntryState {
    match outcome
    case Ok => e.(checkedAt := now, failingSince := None, fails := 0, task := Done)
    case Failed =>
      e.(checkedAt := now - ttl + RETRY_S,
         failingSince := if e.failingSince.None? then Some(now) else e.failingSince,
         fails := e.fails + 1, task := Done)
    case Denied(v) => e.(denied := Some(v), task := Done)
    case Cancelled => e.(task := Done)
  }

  /** The gate in `infer`. */
  function GateAnswer(e: EntryState, now: real): Answer {
    if e.denied.Some? then Refused(e.denied.value)
    else if e.fails >= 1 && e.failingSince.Some? && now - e.failingSince.value >= FAIL_CLOSED_S then Unavailable
    else Admitted
  }

  predicate Starts(e: EntryState, now: real, ttl: real) {
    GateAnswer(e, now).Admitted? && now - e.checkedAt >= ttl && !e.task.Running?
  }

  function AfterGate(e: EntryState, now: real, ttl: real): EntryState {
    if Starts(e, now, ttl) then e.(task := Running) else e
  }

  class Entry {
    var checkedAt: real
    var failingSince: Option<real>
    var fails: nat
    var task: Task
    var denied: Option<Verdict>

    function View(): EntryState
      reads this
    {
      EntryState(checkedAt, failingSince, fails, task, denied)
    }

    constructor (now: real)
      ensures View() == NewEntry(now)
    {
      checkedAt := now;
      failingSince := None;
      fails := 0;
      task := NoTask;
      denied := None;
    }

    /** `_check_failed`. */
    method CheckFailed(now: real, ttl: real)
      modifies this
      ensures View() == Finish(old(View()), Failed, now, ttl).(task := old(task))
    {
      fails := fails + 1;
      if failingSince.None? { failingSince := Some(now); }
      checkedAt := now - ttl + RETRY_S;
    }

    method FinishCheck(outcome: Outcome, now: real, ttl: real)
      modifies this
      ensures View() == Finish(old(View()), outcome, now, ttl)
    {
      match outcome {
        case Ok =>
          checkedAt := now;
          fails := 0;
          failingSince := None;
        case Failed => CheckFailed(now, ttl);
        case Denied(v) => denied := Some(v);
        case Cancelled =>
      }
      task := Done;
    }

    method Gate(now: real, ttl: real) returns (answer: Answer, started: bool)
      modifies this
      ensures answer == GateAnswer(old(View()), now) && started == Starts(old(View()), now, ttl)
      ensures View() == AfterGate(old(View()), now, ttl)
    {
      started := false;
      if denied.Some? { return Refused(denied.value), false; }
      if fails >= 1 && failingSince.Some? && now - failingSince.value >= FAIL_CLOSED_S {
        return Unavailable, false;
      }
      if now - checkedAt >= ttl && !task.Running? {
        task := Running;
        started := true;
      }
      answer := Admitted;
    }
  }

  // ---- histories ---------------------------------------------------------------------------------

  datatype Event = Observe(at: real) | Finished(outcome: Outcome, at: real)

  /** The entry after `events`, made at `made`. */
  function After(made: real, ttl: real, events: seq<Event>): EntryState {
    if events == [] then NewEntry(made) else
      var e := After(made, ttl, events[..|events| - 1]);
      match events[|events| - 1]
      case Observe(now) => AfterGate(e, now, ttl)
      case Finished(outcome, now) => Finish(e, outcome, now, ttl)
  }

  function ClockOf(made: real, events: seq<Event>): real {
    if events == [] then made else events[|events| - 1].at
  }

  /** A history the event loop can produce: time does not run backwards, and only a running check ends. */
  ghost predicate History(made: real, ttl: real, events: seq<Event>) {
    events == [] ||
    var past := events[..|events| - 1]; var last := events[|events| - 1];
    && History(made, ttl, past)
    && ClockOf(made, past) <= last.at
    && (last.Finished? ==> After(made, ttl, past).task.Running?)
  }

  /** The failed checks since the last successful one. */
  function FailRun(events: seq<Event>): seq<real> {
    if events == [] then [] else
      var run := FailRun(events[..|events| - 1]);
      match events[|events| - 1]
      case Finished(Ok, _) => []
      case Finished(Failed, at) => run + [at]
      case _ => run
  }

  ghost predicate HasVerdict(events: seq<Event>) {
    exists i :: 0 <= i < |events| && events[i].Finished? && events[i].outcome.Denied?
  }

  /** How many checks the observations in `events` have started, and how many have ended. */
  function Started(made: real, ttl: real, events: seq<Event>): nat {
    if events == [] then 0 else
      var past := events[..|events| - 1]; var last := events[|events| - 1];
      Started(made, ttl, past) + if last.Observe? && Starts(After(made, ttl, past), last.at, ttl) then 1 else 0
  }

  function Ended(events: seq<Event>): nat {
    if events == [] then 0
    else Ended(events[..|events| - 1]) + if events[|events| - 1].Finished? then 1 else 0
  }

  /** `fails` and `failing_since` describe exactly the unbroken run of failed checks. */
  lemma {:induction false} CountersDescribeRun(made: real, ttl: real, events: seq<Event>)
    ensures var e := After(made, ttl, events); var run := FailRun(events);
      && e.fails == |run|
      && e.failingSince == if run == [] then None else Some(run[0])
  {
    if events != [] { CountersDescribeRun(made, ttl, events[..|events| - 1]); }
  }

  lemma {:induction false} DeniedMeansVerdict(made: real, ttl: real, events: seq<Event>)
    ensures After(made, ttl, events).denied.Some? <==> HasVerdict(events)
  {
    if events != [] {
      var n := |events| - 1;
      DeniedMeansVerdict(made, ttl, events[..n]);
      if HasVerdict(events[..n]) {
        var i :| 0 <= i < n && events[..n][i].Finished? && events[..n][i].outcome.Denied?;
        assert events[i].Finished?;
      }
      if HasVerdict(events) {
        var i :| 0 <= i <= n && events[i].Finished? && events[i].outcome.Denied?;
        if i < n { assert events[..n][i].Finished?; }
      }
    }
  }

  /** The gate, told by the history alone: an observation is served exactly when no check has given a
      verdict and the current run of failed checks, if there is one, began less than 30 s ago. */
  lemma AdmittedIff(made: real, ttl: real, events: seq<Event>, now: real)
    ensures var run := FailRun(events);
      var served := GateAnswer(After(made, ttl, events), now).Admitted?;
      served <==> !HasVerdict(events) && (run == [] || now - run[0] < FAIL_CLOSED_S)
  {
    CountersDescribeRun(made, ttl, events);
    DeniedMeansVerdict(made, ttl, events);
  }

  /** At most one check runs: the checks started and not yet ended are one or none. */
  lemma {:induction false} SingleFlight(made: real, ttl: real, events: seq<Event>)
    requires History(made, ttl, events)
    ensures Started(made, ttl, events)
         == Ended(events) + if After(made, ttl, events).task.Running? then 1 else 0
  {
    if events != [] { SingleFlight(made, ttl, events[..|events| - 1]); }
  }

  /** `checked_at` never moves back, and a running check began at least a TTL after it. */
  lemma {:induction false} CheckedAtBehind(made: real, ttl: real, events: seq<Event>)
    requires ttl >= 0.0 && History(made, ttl, events)
    ensures var e := After(made, ttl, events);
      && (e.task.Running? ==> ClockOf(made, events) >= e.checkedAt + ttl)
      && (events != [] ==> After(made, ttl, events[..|events| - 1]).checkedAt <= e.checkedAt)
  {
    if events != [] { CheckedAtBehind(made, ttl, events[..|events| - 1]); }
  }

  /** The earliest time at which a check may follow one that ended `outcome` at `at`. */
  function EarliestNext(outcome: Outcome, at: real, ttl: real): Option<real> {
    match outcome
    case Ok => Some(at + ttl)
    case Failed => Some(at + RETRY_S)
    case _ => None
  }

  lemma {:induction false} CheckedAtRemembers(made: real, ttl: real, events: seq<Event>, i: nat)
    requires ttl >= 0.0 && History(made, ttl, events) && i < |events| && events[i].Finished?
    ensures var next := EarliestNext(events[i].outcome, events[i].at, ttl);
      next.Some? ==> After(made, ttl, events).checkedAt + ttl >= next.value
  {
    if i < |events| - 1 {
      CheckedAtRemembers(made, ttl, events[..|events| - 1], i);
      CheckedAtBehind(made, ttl, events);
    }
  }

  /** A check starts no sooner than the TTL after any successful check before it, and no sooner than 2 s
      after any failed one. */
  lemma StartSpacing(made: real, ttl: real, events: seq<Event>, i: nat, now: real)
    requires ttl >= 0.0 && History(made, ttl, events) && i < |events| && events[i].Finished?
    requires Starts(After(made, ttl, events), now, ttl)
    ensures events[i].outcome.Ok? ==> now >= events[i].at + ttl
    ensures events[i].outcome.Failed? ==> now >= events[i].at + RETRY_S
  {
    CheckedAtRemembers(made, ttl, events, i);
  }

  /** The failed checks of one run end at least 2 s apart; a running check is 2 s past the last of them. */
  lemma {:induction false} RunSpacing(made: real, ttl: real, events: seq<Event>)
    requires ttl >= 0.0 && History(made, ttl, events)
    ensures var run := FailRun(events); var e := After(made, ttl, events);
      && (forall k :: 0 <= k < |run| ==> run[k] >= run[0] + RETRY_S * k as real)
      && (run != [] ==> run[|run| - 1] <= ClockOf(made, events) && e.checkedAt + ttl >= run[|run| - 1] + RETRY_S)
  {
    if events != [] {
      var n := |events| - 1;
      RunSpacing(made, ttl, events[..n]);
      CheckedAtBehind(made, ttl, events[..n]);
      CheckedAtBehind(made, ttl, events);
    }
  }

  /** Failing closed needs no long queue of failures: whenever an observation is served, the run of
      failed checks behind it has at most 15 of them. */
  lemma FewFailuresBehindAdmitted(made: real, ttl: real, events: seq<Event>, now: real)
    requires ttl >= 0.0 && History(made, ttl, events) && ClockOf(made, events) <= now
    requires GateAnswer(After(made, ttl, events), now).Admitted?
    ensures |FailRun(events)| <= 15
  {
    AdmittedIff(made, ttl, events, now);
    RunSpacing(made, ttl, events);
    var run := FailRun(events);
    if run != [] { assert run[|run| - 1] >= run[0] + RETRY_S * (|run| - 1) as real; }
  }
}

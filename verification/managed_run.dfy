/** The main thread of a managed training run: start, LeRobot, finish. */
module ManagedRuns {

  import opened Common
  import opened WorkerApi
  import opened WorkerTrace

  const START_RETRY_EVERY_S := 120.0
  const MAX_TRIES := 8
  const FINAL_UPLOAD_WAIT_S := 1080.0

  /** What a start-class retry loop repeats. */
  datatype What = StartCall | FinishCall | FirstWrite

  /** The parts of a valid `start` answer the run branches on. */
  datatype StartAnswer = StartAnswer(finished: bool, resume: Option<int>, budget: int)

  datatype Result = Began(answer: StartAnswer) | Done | Stop | Retry | GiveUp

  datatype Verdict = Refused | Kept | Ignored | BadStop | BadGiveUp

  datatype Outcome = HostUnfit | Succeeded | Failed | Stopped

  datatype Preparation = Ready | BadCheckpoint | NotPrepared

  function Delay(n: nat): real {
    if n == 0 then 5.0 else if n == 1 then 15.0 else if n == 2 then 45.0 else START_RETRY_EVERY_S
  }

  /** How long the first `n` waits take at least. */
  function Waited(n: nat): real { if n == 0 then 0.0 else Waited(n - 1) + Delay(n - 1) }

  lemma {:induction false} WaitedAfter(n: nat)
    ensures Waited(3 + n) == 65.0 + n as real * START_RETRY_EVERY_S
  {
    if n > 0 { WaitedAfter(n - 1); }
  }

  /** Eight waits do not fit before the give-up time. */
  lemma FewWaits(n: nat)
    requires Waited(n) <= START_RETRY_GIVEUP_S
    ensures n < MAX_TRIES
  {
    if n >= 3 { WaitedAfter(n - 3); }
  }

  /** The list of delays after `n` of them were taken off. */
  function DelaysLeft(n: nat): seq<real> {
    if n == 0 then [5.0, 15.0, 45.0, 120.0]
    else if n == 1 then [15.0, 45.0, 120.0]
    else if n == 2 then [45.0, 120.0]
    else if n == 3 then [120.0]
    else []
  }

  lemma NextDelay(n: nat)
    ensures DelaysLeft(n) != [] ==> DelaysLeft(n)[0] == Delay(n) && DelaysLeft(n)[1..] == DelaysLeft(n + 1)
    ensures DelaysLeft(n) == [] ==> Delay(n) == START_RETRY_EVERY_S && DelaysLeft(n + 1) == []
  {
  }

  /** `finish` was answered with a 200. */
  ghost predicate FinishAccepted(t: Trace) { exists code :: Answered(Finish, Answer(200, code)) in t }

  class ManagedRun {
    const w: Worker

    constructor (w: Worker)
      ensures this.w == w
    {
      this.w := w;
    }

    /** `s` is the history some stage began with; nothing since marks a stage. */
    ghost predicate Within(s: Trace)
      reads w
    {
      w.Valid() && SameStage(s, w.trace)
    }

    ghost method Note(s: Trace, e: Event)
      requires Within(s) && e != Fenced && Allowed(w.trace, e, w.plan) && !IsStage(e)
      modifies w`trace
      ensures Within(s) && w.trace == old(w.trace) + [e]
    {
      SameStageNext(s, w.trace, e);
      w.Record(e);
    }

    method Interfere(ghost s: Trace)
      requires Within(s)
      modifies w
      ensures Within(s) && w.now == old(w.now) && (old(w.fenced) ==> w.fenced)
      ensures w.trace == old(w.trace) || w.trace == old(w.trace) + [Fenced]
    {
      SameStageNext(s, w.trace, Fenced);
      w.Interfere();
    }

    method Call(ghost s: Trace, action: Action, deadline: Option<real>) returns (a: Answer)
      requires Within(s) && !action.CkptUrl? && !action.CkptDone?
      modifies w
      ensures Within(s) && w.now >= old(w.now) && WaitsWithin(old(w.trace), w.trace, old(w.now), deadline)
      ensures Tally(w.trace, ATry) == Tally(old(w.trace), ATry)
      ensures Tally(w.trace, APost) <= Tally(old(w.trace), APost) + API_POSTS_MAX
      ensures (a.Answer? && a.status == 401 ==> w.fenced) && (Heard(a) ==> w.Replied(action, a))
      ensures old(w.fenced) ==> w.fenced
    {
      ghost var was := w.trace;
      a := w.Api(action, deadline);
      CalledSameStage(was, w.trace, action);
      SameStageTransitive(s, was, w.trace);
      TallyKept(was, w.trace, ATry);
    }

    method Fence(ghost s: Trace)
      requires Within(s)
      modifies w
      ensures Within(s) && w.fenced && w.trace == old(w.trace) + [Fenced]
    {
      SameStageNext(s, w.trace, Fenced);
      w.Fence();
    }

    method Wait(ghost s: Trace, seconds: real)
      requires Within(s) && seconds >= 0.0
      modifies w
      ensures Within(s) && w.now >= old(w.now) + seconds && w.fenced == old(w.fenced)
      ensures w.trace == old(w.trace) + [Slept(old(w.now), seconds)] &&
        Tally(w.trace, APost) == Tally(old(w.trace), APost)
    {
      TallyNext(w.trace, Slept(w.now, seconds), APost);
      SameStageNext(s, w.trace, Slept(w.now, seconds));
      w.Sleep(seconds);
    }

    // ---- the start-class retry -------------------------------------------------------------------------

    /** What a retry loop has done since `s`: waits between its beginning and its give-up time, `n` tries at most. */
    ghost predicate Trying(s: Trace, begin: real, n: nat)
      reads w
    {
      && Within(s) && begin <= w.now && WaitsWithin(s, w.trace, begin, Some(begin + START_RETRY_GIVEUP_S))
      && Tally(w.trace, ATry) <= Tally(s, ATry) + n
    }

    ghost method NoteTrying(s: Trace, begin: real, n: nat, e: Event)
      requires Trying(s, begin, n) && e != Fenced && Allowed(w.trace, e, w.plan) && !IsStage(e) && !e.Slept?
      modifies w`trace
      ensures Trying(s, begin, if e.Tried? then n + 1 else n) && w.trace == old(w.trace) + [e]
    {
      TallyNext(w.trace, e, ATry);
      WaitsNext(s, w.trace, e, begin, Some(begin + START_RETRY_GIVEUP_S));
      Note(s, e);
    }

    method FenceTrying(ghost s: Trace, ghost begin: real, ghost n: nat)
      requires Trying(s, begin, n)
      modifies w
      ensures Trying(s, begin, n) && w.fenced && w.now == old(w.now)
    {
      TallyNext(w.trace, Fenced, ATry);
      WaitsNext(s, w.trace, Fenced, begin, Some(begin + START_RETRY_GIVEUP_S));
      w.Fence();
    }

    method LookAtFence(ghost s: Trace, ghost begin: real, ghost n: nat)
      requires Trying(s, begin, n)
      modifies w
      ensures Trying(s, begin, n) && w.now == old(w.now)
    {
      TallyNext(w.trace, Fenced, ATry);
      WaitsNext(s, w.trace, Fenced, begin, Some(begin + START_RETRY_GIVEUP_S));
      Interfere(s);
    }

    method Ask(ghost s: Trace, begin: real, ghost n: nat, action: Action) returns (a: Answer)
      requires Trying(s, begin, n) && (action == Start || action == Finish)
      modifies w
      ensures Trying(s, begin, n) && w.now >= old(w.now)
      ensures (a.Answer? && a.status == 401 ==> w.fenced) && (Heard(a) ==> w.Replied(action, a))
    {
      a := Call(s, action, Some(begin + START_RETRY_GIVEUP_S));
      WaitsTransitive(s, old(w.trace), w.trace, begin, old(w.now), Some(begin + START_RETRY_GIVEUP_S));
    }

    /** One `start`: a valid 200 counts, 401 and 409 stop with the fence set, all else is tried again. */
    method OnceStart(ghost s: Trace, begin: real, ghost n: nat) returns (r: Result)
      requires Trying(s, begin, n)
      modifies w
      ensures Trying(s, begin, n) && w.now >= old(w.now)
      ensures r.Began? || r.Stop? || r.Retry?
      ensures (r.Stop? ==> w.fenced) && (r.Began? ==> StartAccepted in w.trace)
    {
      var a := Ask(s, begin, n, Start);
      if a.Answer? && a.status == 200 {
        var valid: bool, finished: bool, resumed: bool, step: int, budget: int := *, *, *, *, *;
        if !valid { return Retry; }
        NoteTrying(s, begin, n, StartAccepted);
        return Began(StartAnswer(finished, if resumed then Some(step) else None, budget));
      }
      if a.Answer? && a.status == 401 { return Stop; }
      if a.Answer? && a.status == 409 {
        FenceTrying(s, begin, n);
        return Stop;
      }
      return Retry;
    }

    /** One `finish`: 200 counts, 401 and 409 stop, all else is tried again. */
    method OnceFinish(ghost s: Trace, begin: real, ghost n: nat) returns (r: Result, ghost a: Answer)
      requires Trying(s, begin, n)
      modifies w
      ensures Trying(s, begin, n) && w.now >= old(w.now) && (Heard(a) ==> w.Replied(Finish, a))
      ensures r == if a.Answer? && a.status == 200 then Done else if a.Answer? &&
        a.status in {401, 409} then Stop else Retry
    {
      var answer := Ask(s, begin, n, Finish);
      a := answer;
      if answer.Answer? && answer.status == 200 { return Done, a; }
      if answer.Answer? && (answer.status == 401 || answer.status == 409) { return Stop, a; }
      return Retry, a;
    }

    /** The progress RPC; a `P0001` answer sets the fence. */
    method OnceWrite(ghost s: Trace, begin: real, ghost n: nat) returns (r: Result)
      requires Trying(s, begin, n)
      modifies w
      ensures Trying(s, begin, n) && w.now >= old(w.now)
      ensures r == Done || r == if w.fenced then Stop else Retry
      ensures r.Done? ==> RunningWrite(true) in w.trace
    {
      var ok: bool, cancelled: bool := *, *;
      NoteTrying(s, begin, n, RunningWrite(ok));
      var t := w.Monotonic();
      if ok { return Done; }
      if cancelled { FenceTrying(s, begin, n); }
      return if w.fenced then Stop else Retry;
    }

    /** What a result stands for. */
    ghost predicate Shows(what: What, r: Result)
      reads w
    {
      && (r.Began? ==> what == StartCall && StartAccepted in w.trace)
      && (r.Done? ==> what != StartCall)
      && (r.Done? && what == FirstWrite ==> RunningWrite(true) in w.trace)
      && (r.Done? && what == FinishCall ==> FinishAccepted(w.trace))
    }

    method Once(ghost s: Trace, what: What, begin: real, ghost n: nat) returns (r: Result)
      requires Trying(s, begin, n)
      modifies w
      ensures Trying(s, begin, n) && w.now >= old(w.now) && !r.GiveUp? && Shows(what, r)
    {
      match what
      case StartCall => r := OnceStart(s, begin, n);
      case FinishCall =>
        ghost var a: Answer;
        r, a := OnceFinish(s, begin, n);
        assert r.Done? ==> Answered(Finish, Answer(200, a.code)) in w.trace;
      case FirstWrite => r := OnceWrite(s, begin, n);
    }

    method TryOnce(ghost s: Trace, what: What, begin: real, ghost n: nat) returns (r: Result)
      requires Trying(s, begin, n)
      modifies w
      ensures Trying(s, begin, n + 1) && w.now >= old(w.now) && !r.GiveUp? && Shows(what, r)
    {
      LookAtFence(s, begin, n);
      if w.fenced { return Stop; }
      NoteTrying(s, begin, n, Tried);
      r := Once(s, what, begin, n + 1);
    }

    method Pause(ghost s: Trace, delay: real, ghost begin: real, ghost n: nat)
      requires Trying(s, begin, n) && delay >= 0.0 && w.now + delay <= begin + START_RETRY_GIVEUP_S
      modifies w
      ensures Trying(s, begin, n) && w.now >= old(w.now) + delay
    {
      ghost var e := Slept(w.now, delay);
      TallyNext(w.trace, e, ATry);
      SameStageNext(s, w.trace, e);
      WaitsNext(s, w.trace, e, begin, Some(begin + START_RETRY_GIVEUP_S));
      w.Sleep(delay);
    }

    /** Repeats until there is a value, a stop, or no time for another wait. */
    method Repeat(ghost s: Trace, what: What, begin: real) returns (r: Result)
      requires Trying(s, begin, 0)
      modifies w
      ensures Trying(s, begin, MAX_TRIES) && !r.Retry? && Shows(what, r)
      ensures r.GiveUp? ==> w.now + START_RETRY_EVERY_S > begin + START_RETRY_GIVEUP_S
    {
      var delays := [5.0, 15.0, 45.0, 120.0];
      ghost var n := 0;
      while true
        invariant Trying(s, begin, n) && n < MAX_TRIES
        invariant w.now >= begin + Waited(n) && delays == DelaysLeft(n)
        decreases MAX_TRIES - n
      {
        r := TryOnce(s, what, begin, n);
        if !r.Retry? { return; }
        NextDelay(n);
        var delay := if delays != [] then delays[0] else START_RETRY_EVERY_S;
        if delays != [] { delays := delays[1..]; }
        var t := w.Monotonic();
        if t + delay > begin + START_RETRY_GIVEUP_S { return GiveUp; }
        n := n + 1;
        FewWaits(n);
        Pause(s, delay, begin, n);
      }
    }

    // ---- the calls -----------------------------------------------------------------------------------

    /** How far the run has come: the starts made, and whether LeRobot and finish have begun. */
    ghost predicate Stage(starts: nat, spawned: bool, finishing: bool)
      reads w
    {
      && w.Valid() && Tally(w.trace, AStart) == starts && (Spawned in w.trace <==> spawned)
      && (Finishing in w.trace <==> finishing) && RetriesRight(w.trace) && LoopsOver(w.trace)
    }

    /** What was achieved stays achieved while no stage is marked. */
    lemma StageKept(s: Trace, t: Trace)
      requires SameStage(s, t)
      ensures Tally(t, AStart) == Tally(s, AStart)
      ensures (Spawned in t <==> Spawned in s) && (Finishing in t <==> Finishing in s)
      ensures RetriesRight(s) && LoopsOver(s) ==> RetriesRight(t) && LoopsOver(t)
      ensures (Alive(t) ==> Alive(s)) && forall e :: e in s ==> e in t
    {
      TallyKept(s, t, AStart);
      AliveKept(s, t);
      NotAdded(s, t, Spawned);
      NotAdded(s, t, Finishing);
      if RetriesRight(s) && LoopsOver(s) { RetriesKept(s, t); }
    }

    /** And so it does through a whole retry loop. */
    lemma LoopKept(s: Trace, t: Trace, begin: real)
      requires Retried(s, t, begin) && RetriesRight(s) && LoopsOver(s)
      ensures Tally(t, AStart) == Tally(s, AStart)
      ensures (Spawned in t <==> Spawned in s) && (Finishing in t <==> Finishing in s)
      ensures RetriesRight(t) && LoopsOver(t)
      ensures (Alive(t) ==> Alive(s)) && forall e :: e in s ==> e in t
    {
      RetriedMarks(s, t, begin);
      TallyKept(s, t, AStart);
      AliveKept(s, t);
      NotAdded(s, t, Spawned);
      NotAdded(s, t, Finishing);
      RetriedRight(s, t, begin);
    }

    /** Marks the beginning of a stage that is not a retry loop. */
    ghost method Mark(starts: nat, spawned: bool, finishing: bool, e: Event)
      requires Stage(starts, spawned, finishing) && Allowed(w.trace, e, w.plan)
      requires e == Starting || e == Spawned || e == Finishing
      modifies w`trace
      ensures Stage(if e == Starting then starts + 1 else starts, spawned || e == Spawned, finishing || e == Finishing)
      ensures w.trace == old(w.trace) + [e]
    {
      TallyNext(w.trace, e, AStart);
      RetriesNext(w.trace, e);
      w.Record(e);
    }

    method StageFence(ghost starts: nat, ghost spawned: bool, ghost finishing: bool)
      requires Stage(starts, spawned, finishing)
      modifies w
      ensures Stage(starts, spawned, finishing) && w.fenced && w.trace == old(w.trace) + [Fenced]
    {
      Fence(w.trace);
      StageKept(old(w.trace), w.trace);
    }

    /** One whole retry loop, in a history of its own. */
    method Loop(what: What) returns (r: Result, ghost begin: real)
      requires w.Valid()
      modifies w
      ensures w.Valid() && old(w.now) <= begin && Retried(old(w.trace), w.trace, begin)
      ensures Tally(w.trace, ATry) <= Tally(old(w.trace), ATry) + MAX_TRIES
      ensures !r.Retry? && Shows(what, r)
    {
      var t := w.Monotonic();
      begin := t;
      TallyNext(w.trace, LoopBegun(t), ATry);
      w.Record(LoopBegun(t));
      r := Repeat(w.trace, what, t);
      TallyNext(w.trace, LoopEnded, ATry);
      RetriedWhole(old(w.trace), w.trace, t);
      w.Record(LoopEnded);
    }

    /** Every wait since `s` lies within ten minutes of `begin`. */
    ghost predicate WaitedFor(s: Trace, begin: real)
      reads w
    {
      WaitsWithin(s, w.trace, begin, Some(begin + START_RETRY_GIVEUP_S))
    }

    /**
      * The start-class retry: at most eight tries and, whatever the API answers and however long anything
      * takes, no wait that begins before the loop or would end after the give-up time, 600 s from its beginning.
      */
    method StartClass(ghost starts: nat, ghost spawned: bool, ghost finishing: bool, what: What)
      returns (r: Result, ghost begin: real)
      requires Stage(starts, spawned, finishing)
      modifies w
      ensures Stage(starts, spawned, finishing) && old(w.trace) <= w.trace && (Alive(w.trace) ==> Alive(old(w.trace)))
      ensures old(w.now) <= begin && WaitedFor(old(w.trace), begin)
      ensures Tally(w.trace, ATry) <= Tally(old(w.trace), ATry) + MAX_TRIES
      ensures !r.Retry? && Shows(what, r)
    {
      r, begin := Loop(what);
      LoopKept(old(w.trace), w.trace, begin);
    }

    /** The retry, and the fence when it ends without a value. */
    method ValueOrFence(ghost starts: nat, ghost spawned: bool, ghost finishing: bool, what: What)
      returns (r: Result, ghost begin: real)
      requires Stage(starts, spawned, finishing)
      modifies w
      ensures Stage(starts, spawned, finishing) && old(w.trace) <= w.trace && (Alive(w.trace) ==> Alive(old(w.trace)))
      ensures old(w.now) <= begin && WaitedFor(old(w.trace), begin)
      ensures if r.Began? || r.Done? then Shows(what, r) else w.fenced
    {
      r, begin := StartClass(starts, spawned, finishing, what);
      if !r.Began? && !r.Done? {
        WaitsNext(old(w.trace), w.trace, Fenced, begin, Some(begin + START_RETRY_GIVEUP_S));
        AliveKept(w.trace, w.trace + [Fenced]);
        StageFence(starts, spawned, finishing);
      }
    }

    method CallStart(ghost starts: nat) returns (r: Option<StartAnswer>, ghost begin: real)
      requires Stage(starts, false, false) && starts < START_LOOP_MAX
      modifies w
      ensures Stage(starts + 1, false, false) && old(w.trace) <= w.trace
      ensures old(w.now) <= begin && WaitedFor(old(w.trace), begin)
      ensures if r.None? then w.fenced else StartAccepted in w.trace
    {
      Mark(starts, false, false, Starting);
      var result;
      result, begin := ValueOrFence(starts + 1, false, false, StartCall);
      WaitsFrom(old(w.trace), Starting, w.trace, begin, Some(begin + START_RETRY_GIVEUP_S));
      r := if result.Began? then Some(result.answer) else None;
    }

    /** No new uploads, and the run is marked as finishing. */
    method BeginFinish(ghost starts: nat, ghost spawned: bool)
      requires Stage(starts, spawned, false)
      modifies w
      ensures Stage(starts, spawned, true) && w.trace == old(w.trace) + [Finishing] && w.now == old(w.now) &&
        w.uploaderStop
    {
      w.StopUploader();
      Mark(starts, spawned, false, Finishing);
    }

    /** Ends with `finish` accepted or with the fence set. */
    method CallFinish(ghost starts: nat, ghost spawned: bool) returns (ghost begin: real)
      requires Stage(starts, spawned, false)
      modifies w
      ensures Stage(starts, spawned, true) && old(w.trace) <= w.trace && (Alive(w.trace) ==> Alive(old(w.trace)))
      ensures old(w.now) <= begin && WaitedFor(old(w.trace), begin)
      ensures w.fenced || FinishAccepted(w.trace)
    {
      BeginFinish(starts, spawned);
      AliveKept(old(w.trace), w.trace);
      var result;
      result, begin := ValueOrFence(starts, spawned, true, FinishCall);
      WaitsFrom(old(w.trace), Finishing, w.trace, begin, Some(begin + START_RETRY_GIVEUP_S));
    }

    method FirstRunningWrite(ghost starts: nat) returns (ok: bool, ghost begin: real)
      requires Stage(starts, false, false)
      modifies w
      ensures Stage(starts, false, false) && old(w.trace) <= w.trace
      ensures old(w.now) <= begin && WaitedFor(old(w.trace), begin)
      ensures if ok then RunningWrite(true) in w.trace else w.fenced
    {
      var result;
      result, begin := ValueOrFence(starts, false, false, FirstWrite);
      ok := result.Done?;
    }

    /** What one answer to `ckpt-bad` decides, if anything. */
    method OnceCkptBad(ghost s: Trace) returns (v: Option<Verdict>, ghost a: Answer)
      requires Within(s)
      modifies w
      ensures Within(s) && Tally(w.trace, APost) <= Tally(old(w.trace), APost) + API_POSTS_MAX
      ensures v.Some? ==> v.value != BadGiveUp && if v.value == BadStop then w.fenced else Decides(a)
    {
      var answer := Call(s, CkptBad, None);
      a := answer;
      if answer.Answer? && answer.status == 200 {
        var state: Option<Verdict> := *;
        if state == Some(Refused) || state == Some(Kept) || state == Some(Ignored) { return state, a; }
      }
      return if answer.Answer? && answer.status == 401 then Some(BadStop) else None, a;
    }

    /** The API just said what becomes of the checkpoint. */
    ghost predicate Decides(a: Answer)
      reads w
    {
      a.Answer? && a.status == 200 && w.Replied(CkptBad, a)
    }

    /** Four calls at most; the state the API gives the checkpoint, or why there is none. */
    method CallCkptBad(ghost s: Trace) returns (v: Verdict, ghost a: Answer)
      requires Within(s)
      modifies w
      ensures Within(s) && Tally(w.trace, APost) <= Tally(old(w.trace), APost) + 4 * API_POSTS_MAX
      ensures v == BadGiveUp || if v == BadStop then w.fenced else Decides(a)
    {
      var delays := [5.0, 15.0, 45.0];
      while true
        invariant Within(s) && |delays| <= 3 && forall i :: 0 <= i < |delays| ==> delays[i] >= 0.0
        invariant Tally(w.trace, APost) + |delays| * API_POSTS_MAX <= Tally(old(w.trace), APost) + 3 * API_POSTS_MAX
        decreases |delays|
      {
        var once;
        once, a := OnceCkptBad(s);
        if once.Some? { return once.value, a; }
        if delays == [] { return BadGiveUp, a; }
        Wait(s, delays[0]);
        delays := delays[1..];
      }
    }

    /** Best effort; the log is put without a look at the fence. */
    method UploadLog(ghost s: Trace)
      requires Within(s)
      modifies w
      ensures Within(s) && (old(w.fenced) ==> w.fenced)
    {
      var a := Call(s, LogUrl, None);
      var given: bool := *;
      if !(a.Answer? && a.status == 200) || !given { return; }
      for attempt := 0 to 3
        invariant Within(s) && (old(w.fenced) ==> w.fenced)
      {
        var ok: bool := *;
        Note(s, PutLog);
        if ok { return; }
        if attempt < 2 {
          Wait(s, 2.0 * (attempt + 1) as real);
        }
      }
    }

    /** One second passes, in which the other threads run. */
    method Tick(ghost s: Trace)
      requires Within(s)
      modifies w
      ensures Within(s) && w.now >= old(w.now) + 1.0 && (old(w.fenced) ==> w.fenced)
      ensures var slept := old(w.trace) + [Slept(old(w.now), 1.0)]; w.trace == slept || w.trace == slept + [Fenced]
    {
      Wait(s, 1.0);
      Interfere(s);
    }

    /** LeRobot runs until it exits, the fence is set or the budget is used up; then it is gone. */
    method AwaitExit(ghost s: Trace, deadline: real) returns (timedOut: bool, exited: bool)
      requires Within(s)
      modifies w
      ensures Within(s) && !Alive(w.trace)
      ensures (timedOut ==> w.now >= deadline) && (!timedOut && !exited ==> w.fenced)
    {
      while true
        invariant Within(s)
        decreases (deadline - w.now).Floor
      {
        var running: bool := *;
        Interfere(s);
        if !running {
          Note(s, Gone);
          return false, true;
        }
        if w.fenced {
          Note(s, Gone);
          return false, false;
        }
        var t := w.Monotonic();
        if t >= deadline {
          Note(s, Gone);
          return true, false;
        }
        Tick(s);
      }
    }

    /** A second passes before `until`. */
    method TickBefore(ghost s: Trace, ghost was: Trace, ghost begin: real, ghost until: real)
      requires Within(s) && begin <= w.now && w.now + 1.0 <= until && WaitsWithin(was, w.trace, begin, Some(until))
      modifies w
      ensures Within(s) && w.now >= old(w.now) + 1.0 && WaitsWithin(was, w.trace, begin, Some(until))
    {
      ghost var slept := w.trace + [Slept(w.now, 1.0)];
      WaitsNext(was, w.trace, Slept(w.now, 1.0), begin, Some(until));
      WaitsNext(was, slept, Fenced, begin, Some(until));
      Tick(s);
    }

    /** Waits for the uploader to settle the final checkpoint, for 1080 s and a last second at most. */
    method AwaitUpload(ghost s: Trace) returns (settled: bool, ghost begin: real)
      requires Within(s)
      modifies w
      ensures Within(s) && old(w.now) <= begin && (settled || w.fenced || w.now >= begin + FINAL_UPLOAD_WAIT_S)
      ensures WaitsWithin(old(w.trace), w.trace, begin, Some(begin + FINAL_UPLOAD_WAIT_S + 1.0))
    {
      var t := w.Monotonic();
      var until := t + FINAL_UPLOAD_WAIT_S;
      begin := t;
      while true
        invariant Within(s) && w.now >= begin && until == begin + FINAL_UPLOAD_WAIT_S
        invariant WaitsWithin(old(w.trace), w.trace, begin, Some(until + 1.0))
        decreases (until - w.now).Floor
      {
        settled := *;
        WaitsNext(old(w.trace), w.trace, Fenced, begin, Some(until + 1.0));
        Interfere(s);
        t := w.Monotonic();
        if settled || w.fenced || t >= until { return; }
        TickBefore(s, old(w.trace), begin, until + 1.0);
      }
    }

    // ---- the run -------------------------------------------------------------------------------------

    /** Start and resume, until LeRobot can be spawned; `None` then. */
    method Prepare() returns (outcome: Option<Outcome>, resumed: bool, deadline: real, ghost starts: nat)
      requires Stage(0, false, false)
      modifies w
      ensures Stage(starts, false, outcome.Some? && outcome.value != Stopped)
      ensures outcome == Some(Stopped) ==> w.fenced
      ensures outcome.Some? && outcome.value != Stopped ==> w.fenced || FinishAccepted(w.trace)
      ensures outcome.None? ==> StartAccepted in w.trace && RunningWrite(true) in w.trace
      ensures outcome != Some(Failed)
    {
      starts, deadline := 0, 0.0;
      ghost var begin;
      for loop := 1 to START_LOOP_MAX + 2
        invariant starts == loop - 1 && starts <= START_LOOP_MAX
        invariant Stage(starts, false, false)
        invariant loop > 1 ==> RunningWrite(true) in w.trace
      {
        if loop > START_LOOP_MAX {
          begin := CallFinish(starts, false);
          return Some(HostUnfit), false, deadline, starts;
        }
        var answer;
        answer, begin := CallStart(starts);
        starts := starts + 1;
        if answer.None? { return Some(Stopped), false, deadline, starts; }
        if answer.value.finished {
          begin := CallFinish(starts, false);
          return Some(Succeeded), false, deadline, starts;
        }
        resumed := answer.value.resume.Some?;
        if loop == 1 {
          var ok;
          ok, begin := FirstRunningWrite(starts);
          if !ok { return Some(Stopped), false, deadline, starts; }
        }
        deadline := w.Monotonic();
        deadline := deadline + answer.value.budget as real;
        var next: Option<Outcome>;
        var again: bool;
        next, again := PrepareResume(starts, resumed);
        if !again { return next, resumed, deadline, starts; }
      }
      assert false;
    }

    /** Prepares the command; a bad checkpoint the API refuses is a reason to start over. */
    method PrepareResume(ghost starts: nat, resumed: bool) returns (outcome: Option<Outcome>, again: bool)
      requires Stage(starts, false, false) && StartAccepted in w.trace && RunningWrite(true) in w.trace
      modifies w
      ensures Stage(starts, false, !again && outcome.Some? && outcome.value != Stopped)
      ensures outcome == Some(Stopped) ==> w.fenced
      ensures !again && outcome.Some? && outcome.value != Stopped ==> w.fenced || FinishAccepted(w.trace)
      ensures StartAccepted in w.trace && RunningWrite(true) in w.trace && outcome != Some(Failed)
    {
      ghost var s, begin := w.trace, 0.0;
      var prepared: Preparation := *;
      Interfere(s);
      StageKept(s, w.trace);
      if prepared == Ready { return None, false; }
      if prepared == NotPrepared || !resumed {
        begin := Unfit(starts);
        return Some(HostUnfit), false;
      }
      var verdict, a := CallCkptBad(s);
      StageKept(s, w.trace);
      if verdict == BadStop { return Some(Stopped), false; }
      if verdict == Refused { return None, true; }
      begin := Unfit(starts);
      return Some(HostUnfit), false;
    }

    /** Finishing before LeRobot was spawned, nothing achieved so far being lost. */
    method Unfit(ghost starts: nat) returns (ghost begin: real)
      requires Stage(starts, false, false)
      modifies w
      ensures Stage(starts, false, true) && (w.fenced || FinishAccepted(w.trace)) && old(w.trace) <= w.trace
    {
      begin := CallFinish(starts, false);
    }

    /** LeRobot from its spawn to its end, and what is told to the API then. */
    method Train(ghost starts: nat, resumed: bool, deadline: real) returns (outcome: Outcome)
      requires Stage(starts, false, false) && StartAccepted in w.trace && RunningWrite(true) in w.trace
      modifies w
      ensures Stage(starts, true, outcome != Stopped) && !Alive(w.trace)
      ensures w.fenced || (outcome != Stopped && FinishAccepted(w.trace))
    {
      Mark(starts, false, false, Spawned);
      ghost var s := w.trace;
      var timedOut, exited := AwaitExit(s, deadline);
      StageKept(s, w.trace);
      if !timedOut && !exited { return Stopped; }
      s := w.trace;
      Interfere(s);
      StageKept(s, w.trace);
      if w.fenced { return Stopped; }
      if timedOut {
        Wind(starts);
        return Failed;
      }
      var rc: int, progressed: bool := *, *;
      if rc == 0 {
        s := w.trace;
        var settled, begin := AwaitUpload(s);
        StageKept(s, w.trace);
        if w.fenced { return Stopped; }
        Wind(starts);
        return Succeeded;
      }
      Wind(starts);
      return if progressed then HostUnfit else if !resumed then Failed else HostUnfit;
    }

    /** Stops the uploader, uploads the log and finishes. */
    method Wind(ghost starts: nat)
      requires Stage(starts, true, false) && !Alive(w.trace)
      modifies w
      ensures Stage(starts, true, true) && !Alive(w.trace) && (w.fenced || FinishAccepted(w.trace))
    {
      w.StopUploader();
      ghost var s := w.trace;
      UploadLog(s);
      StageKept(s, w.trace);
      var begin := CallFinish(starts, true);
    }

    /** One managed run from its beginning, stage by stage. */
    method RunStages() returns (outcome: Outcome, ghost starts: nat)
      requires w.Valid() && w.trace == []
      modifies w
      ensures Stage(starts, Spawned in w.trace, outcome != Stopped) && !Alive(w.trace)
      ensures w.fenced || (outcome != Stopped && FinishAccepted(w.trace))
      ensures Spawned !in w.trace ==> outcome != Failed
    {
      ghost var begin;
      var unfit: bool := *;
      if unfit {
        begin := CallFinish(0, false);
        return HostUnfit, 0;
      }
      var early, resumed, deadline;
      early, resumed, deadline, starts := Prepare();
      NeverSpawned(w.trace);
      if early.Some? { return early.value, starts; }
      var spawns: bool := *;
      if !spawns {
        begin := CallFinish(starts, false);
        return HostUnfit, starts;
      }
      outcome := Train(starts, resumed, deadline);
    }

    lemma NeverSpawned(t: Trace)
      requires Spawned !in t
      ensures !Alive(t)
    {
      AliveKept([], t);
    }

    /**
      * One managed run: `start` is called five times at most; LeRobot is spawned once at most, after an
      * accepted start and a successful first running write, and is gone in the end; `finish` is entered
      * exactly once, unless the run ends stopped and so fenced, and is accepted unless the fence is set;
      * every wait of every retry loop ends by its give-up time; and a request began once fenced only by
      * losing the race for the fence, and then just one.
      */
    method Run() returns (outcome: Outcome)
      requires w.Valid() && w.trace == []
      modifies w
      ensures w.Valid() && Tally(w.trace, AStart) <= START_LOOP_MAX
      ensures Tally(w.trace, ASpawn) <= 1 && SpawnsRight(w.trace) && !Alive(w.trace)
      ensures Tally(w.trace, ASpawn) == 0 ==> outcome != Failed
      ensures Tally(w.trace, AFinish) == if outcome == Stopped then 0 else 1
      ensures w.fenced || (outcome != Stopped && FinishAccepted(w.trace))
      ensures RetriesRight(w.trace)
      ensures Late(w.trace) == if RacedOnce(w.trace) then 1 else 0
    {
      ghost var starts;
      outcome, starts := RunStages();
      AtMostFiveStarts(w.trace, w.plan);
      SpawnedOnce(w.trace, w.plan);
      FinishedOnce(w.trace, w.plan);
      LateOnlyByRace(w.trace, w.plan);
      if Tally(w.trace, ASpawn) == 0 { NotTallied(w.trace); }
    }

    lemma {:induction false} NotTallied(t: Trace)
      requires Tally(t, ASpawn) == 0
      ensures Spawned !in t
    {
      if t != [] {
        NotTallied(t[..|t| - 1]);
        assert t == t[..|t| - 1] + [t[|t| - 1]];
      }
    }
  }
}

/** One thread's side of the worker API: bounded repeats, waiting, and the fence. */
module WorkerApi {

  import opened Common
  import opened WorkerTrace

  const RATE_LIMIT_MAX_REPEATS := 20
  const RATE_LIMIT_MAX_WAIT_S := 60
  const API_POSTS_MAX := RATE_LIMIT_MAX_REPEATS + 1

  /** An answer that settles something. */
  predicate Heard(a: Answer) { a.Answer? && a.status in {200, 409, 422} }

  /**
    * The flags are shared between the threads: whenever this one looks at them, another may have raised
    * them. Answers, and how long things take, are up to the world.
    */
  class Worker {
    const plan: Plan
    var fenced: bool
    var uploaderStop: bool
    var now: real
    ghost var trace: Trace

    ghost predicate Valid()
      reads this
    {
      plan.mirrorEvery > 0 && Safe(trace, plan) && (fenced <==> Fenced in trace) && (fenced ==> uploaderStop)
    }

    constructor (plan: Plan)
      requires plan.mirrorEvery > 0
      ensures Valid() && this.plan == plan && trace == []
    {
      this.plan := plan;
      fenced := false;
      uploaderStop := false;
      now := 0.0;
      trace := [];
    }

    ghost method Record(e: Event)
      requires Valid() && e != Fenced && Allowed(trace, e, plan)
      modifies `trace
      ensures Valid() && trace == old(trace) + [e]
    {
      SafeNext(trace, e, plan);
      trace := trace + [e];
    }

    /** Sets the fence, which stops the uploader and kills LeRobot. */
    method Fence()
      requires Valid()
      modifies this
      ensures Valid() && trace == old(trace) + [Fenced] && fenced && uploaderStop && !Alive(trace) && now == old(now)
    {
      SafeNext(trace, Fenced, plan);
      trace := trace + [Fenced];
      fenced := true;
      uploaderStop := true;
    }

    /** `uploader_stop.set()`. */
    method StopUploader()
      requires Valid()
      modifies `uploaderStop
      ensures Valid() && uploaderStop
    {
      uploaderStop := true;
    }

    /** The other threads run for a while. */
    method Interfere()
      requires Valid()
      modifies this
      ensures Valid() && now == old(now)
      ensures fenced == old(fenced) ==> trace == old(trace)
      ensures fenced != old(fenced) ==> fenced && trace == old(trace) + [Fenced]
    {
      var stop: bool, fence: bool := *, *;
      uploaderStop := uploaderStop || stop;
      if fence && !fenced { Fence(); }
    }

    method Monotonic() returns (t: real)
      requires Valid()
      modifies `now
      ensures Valid() && t == now >= old(now)
    {
      var passed: real := *;
      now := now + if passed > 0.0 then passed else 0.0;
      t := now;
    }

    method Sleep(seconds: real)
      requires Valid() && seconds >= 0.0
      modifies this
      ensures Valid() && trace == old(trace) + [Slept(old(now), seconds)]
      ensures now >= old(now) + seconds && fenced == old(fenced) && uploaderStop == old(uploaderStop)
    {
      var more: real := *;
      Record(Slept(now, seconds));
      now := now + seconds + if more > 0.0 then more else 0.0;
    }

    /** The calls of `action` made since the history was `s`, every wait between `begin` and the deadline. */
    ghost predicate Calling(s: Trace, action: Action, begin: real, deadline: Option<real>)
      reads this
    {
      Valid() && Called(s, trace, action) && MayPost(trace, action) &&
        WaitsWithin(s, trace, begin, deadline) && begin <= now
    }

    ghost method Step(s: Trace, was: Trace, e: Event, action: Action, begin: real, deadline: Option<real>)
      requires Called(s, was, action) && MayPost(was, action) && WaitsWithin(s, was, begin, deadline)
      requires IsCall(e, action) && (e.Slept? ==> InTime(e, begin, deadline))
      requires Valid() && trace == was + [e] && begin <= now
      ensures Calling(s, action, begin, deadline)
      ensures Tally(trace, APost) == Tally(was, APost) + if e.Post? then 1 else 0
    {
      CalledNext(s, was, e, action);
      CalledMayPost(was, trace, action);
      WaitsNext(s, was, e, begin, deadline);
      TallyNext(was, e, APost);
    }

    ghost method Add(s: Trace, e: Event, action: Action, begin: real, deadline: Option<real>)
      requires Calling(s, action, begin, deadline) && e != Fenced && Allowed(trace, e, plan)
      requires IsCall(e, action) && !e.Slept?
      modifies `trace
      ensures Calling(s, action, begin, deadline) && trace == old(trace) + [e]
      ensures Tally(trace, APost) == Tally(old(trace), APost) + if e.Post? then 1 else 0
    {
      Record(e);
      Step(s, old(trace), e, action, begin, deadline);
    }

    /** The other threads run while a call is made. */
    method InterfereHere(ghost s: Trace, action: Action, ghost begin: real, ghost deadline: Option<real>)
      requires Calling(s, action, begin, deadline)
      modifies this
      ensures Calling(s, action, begin, deadline) && Tally(trace, APost) == Tally(old(trace), APost)
      ensures now == old(now) && (trace == old(trace) || trace == old(trace) + [Fenced])
      ensures old(fenced) ==> fenced && trace == old(trace)
    {
      Interfere();
      if fenced && !old(fenced) { Step(s, old(trace), Fenced, action, begin, deadline); }
    }

    /** Looks at the fence, after whatever the others did. */
    method Look(ghost s: Trace, action: Action, ghost begin: real, ghost deadline: Option<real>) returns (clear: bool)
      requires Calling(s, action, begin, deadline)
      modifies this
      ensures Calling(s, action, begin, deadline) && Tally(trace, APost) == Tally(old(trace), APost) && now == old(now)
      ensures clear == !fenced && (clear ==> ClearLook(trace))
      ensures old(fenced) ==> fenced && trace == old(trace)
    {
      InterfereHere(s, action, begin, deadline);
      clear := !fenced;
      if clear { Add(s, Looked, action, begin, deadline); }
    }

    /** Sends one request after a clear look; the fence may still be set on the way. */
    method Send(ghost s: Trace, action: Action, ghost begin: real, ghost deadline: Option<real>) returns (a: Answer)
      requires Calling(s, action, begin, deadline) && ClearLook(trace)
      modifies this
      ensures Calling(s, action, begin, deadline)
      ensures Tally(trace, APost) == Tally(old(trace), APost) + 1 && now >= old(now)
      ensures trace[|trace| - 1] == Answered(action, a) && Post(action) in trace
    {
      LookStays(trace);
      InterfereHere(s, action, begin, deadline);
      Add(s, Post(action), action, begin, deadline);
      var status: int, heard: bool, code: Code := *, *, *;
      a := if heard then Answer(status, code) else NoAnswer;
      Add(s, Answered(action, a), action, begin, deadline);
      var t := Monotonic();
    }

    /** What `Retry-After` asks for, within a minute; `None` is a value that cannot be read. */
    static method RetryAfter(asked: Option<int>) returns (wait: real)
      ensures asked.None? ==> wait == 5.0
      ensures 1.0 <= wait <= 60.0
      ensures asked.Some? && 1 <= asked.value <= RATE_LIMIT_MAX_WAIT_S ==> wait == asked.value as real
      ensures asked.Some? && asked.value < 1 ==> wait == 1.0
      ensures asked.Some? && asked.value > RATE_LIMIT_MAX_WAIT_S ==> wait == 60.0
    {
      if asked.None? { return 5.0; }
      var atLeast := if asked.value < 1 then 1 else asked.value;
      wait := (if atLeast > RATE_LIMIT_MAX_WAIT_S then RATE_LIMIT_MAX_WAIT_S else atLeast) as real;
    }

    /** Waits as a 429 asked for, unless that would take too long. */
    method WaitFor429(ghost s: Trace, action: Action, ghost begin: real, deadline: Option<real>) returns (waited: bool)
      requires Calling(s, action, begin, deadline)
      modifies this
      ensures Calling(s, action, begin, deadline) && Tally(trace, APost) == Tally(old(trace), APost)
    {
      var asked: Option<int> := *;
      var wait := RetryAfter(asked);
      var t := Monotonic();
      if deadline.Some? && t + wait > deadline.value { return false; }
      ghost var was := trace;
      Sleep(wait);
      Step(s, was, Slept(t, wait), action, begin, deadline);
      return true;
    }

    method FenceHere(ghost s: Trace, action: Action, ghost begin: real, ghost deadline: Option<real>)
      requires Calling(s, action, begin, deadline)
      modifies this
      ensures Calling(s, action, begin, deadline) && fenced && Tally(trace, APost) == Tally(old(trace), APost)
    {
      ghost var was := trace;
      Fence();
      Step(s, was, Fenced, action, begin, deadline);
    }

    /** The last event is this answer to `action`. */
    ghost predicate Replied(action: Action, a: Answer)
      reads this
    {
      trace != [] && trace[|trace| - 1] == Answered(action, a) && Post(action) in trace
    }

    /** One look and, if it was clear, one request; `again` when a 429 was waited for. */
    method Ask(ghost s: Trace, action: Action, ghost begin: real, deadline: Option<real>)
      returns (a: Answer, again: bool)
      requires Calling(s, action, begin, deadline)
      modifies this
      ensures Calling(s, action, begin, deadline) && Tally(trace, APost) <= Tally(old(trace), APost) + 1
      ensures (a.Answer? && a.status == 401 ==> fenced) && (again ==> a.Answer? && a.status == 429)
      ensures Heard(a) ==> Replied(action, a)
      ensures old(fenced) ==> fenced && trace == old(trace) && !again
    {
      var clear := Look(s, action, begin, deadline);
      if !clear { return Answer(401, OtherCode), false; }
      again := false;
      a := Send(s, action, begin, deadline);
      if a.Answer? && a.status == 429 {
        again := WaitFor429(s, action, begin, deadline);
      } else if a.Answer? && a.status == 401 {
        FenceHere(s, action, begin, deadline);
      }
    }

    /**
      * One POST. A 429 waits and repeats; a 401 sets the fence; nothing is sent without a look that found
      * the fence clear.
      */
    method Api(action: Action, deadline: Option<real>) returns (a: Answer)
      requires Valid() && MayPost(trace, action)
      modifies this
      ensures Calling(old(trace), action, old(now), deadline)
      ensures Tally(trace, APost) <= Tally(old(trace), APost) + API_POSTS_MAX
      ensures a.Answer? && a.status == 401 ==> fenced
      ensures Heard(a) ==> Replied(action, a)
      ensures old(fenced) ==> fenced && trace == old(trace)
    {
      ghost var s, begin := trace, now;
      for i := 0 to API_POSTS_MAX
        invariant Calling(s, action, begin, deadline) && Tally(trace, APost) <= Tally(s, APost) + i
        invariant old(fenced) ==> fenced && trace == s
      {
        var again: bool;
        a, again := Ask(s, action, begin, deadline);
        if !again { return; }
      }
      return Answer(429, OtherCode);
    }
  }
}

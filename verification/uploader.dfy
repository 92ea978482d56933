/** The uploader thread of a managed training run: checkpoints stored, then pruned. */
module Uploader {

  import opened Common
  import opened WorkerApi
  import opened WorkerTrace

  const PUT_TRIES := 3
  const PUT_REASK_MAX := 3

  datatype PutResult = AllPut | Forbidden | PutFailed

  /** A new state for the checkpoint, nothing yet, or an exception for the loop to swallow. */
  datatype Verdict = Settled(state: CkState) | NextTick | Raised

  class CheckpointUploader {
    const w: Worker
    const finalFiles: seq<string>
    const allFiles: seq<string>
    var ckState: map<int, CkState>
    var ckManifest: map<int, Manifest>
    ghost var last: Option<int>

    /** The files a checkpoint of the step is made of. */
    function Rels(step: int): seq<string> { if step == w.plan.totalSteps then finalFiles else allFiles }

    function Files(step: int): set<string> { set file | file in Rels(step) }

    ghost predicate Valid()
      reads this, w
    {
      && w.Valid() && Coupled(w.trace, ckState, ckManifest, last)
      && forall step :: step in ckManifest ==> ckManifest[step].Keys == Files(step)
    }

    constructor (w: Worker, finalFiles: seq<string>, allFiles: seq<string>)
      requires w.Valid() && w.trace == []
      ensures Valid() && this.w == w && ckState == map[]
    {
      this.w := w;
      this.finalFiles := finalFiles;
      this.allFiles := allFiles;
      ckState := map[];
      ckManifest := map[];
      last := None;
    }

    function State(step: int): CkState
      reads this
    {
      StateIn(ckState, step)
    }

    /** Notes an event that moves no checkpoint and sends no manifest. */
    ghost method Note(e: Event)
      requires Valid() && e != Fenced && Allowed(w.trace, e, w.plan) && !e.Moved? && !e.SawNewest? && !e.Post?
      modifies w`trace
      ensures Valid() && w.trace == old(w.trace) + [e]
    {
      CoupledNext(w.trace, e, ckState, ckManifest, last);
      w.Record(e);
    }

    /** Other threads run; then, is everything still to go on? */
    method Going() returns (going: bool)
      requires Valid()
      modifies w
      ensures Valid() && going == (!w.uploaderStop && !w.fenced)
      ensures w.trace == old(w.trace) || w.trace == old(w.trace) + [Fenced]
    {
      CoupledNext(w.trace, Fenced, ckState, ckManifest, last);
      w.Interfere();
      going := !w.uploaderStop && !w.fenced;
    }

    method Call(action: Action) returns (a: Answer)
      requires Valid() && MayPost(w.trace, action)
      requires action.CkptUrl? ==> action.step in ckManifest && ckManifest[action.step] == action.manifest
      modifies w
      ensures Valid() && Called(old(w.trace), w.trace, action)
      ensures Tally(w.trace, APost) <= Tally(old(w.trace), APost) + API_POSTS_MAX
      ensures Tally(w.trace, ATry) == Tally(old(w.trace), ATry)
      ensures Heard(a) ==> w.Replied(action, a)
    {
      a := w.Api(action, None);
      TallyKept(old(w.trace), w.trace, ATry);
      CoupledCalled(old(w.trace), w.trace, action, ckState, ckManifest, last);
    }

    method SetState(step: int, to: CkState)
      requires Valid() && MayMove(w.trace, step, to)
      modifies this`ckState, w`trace
      ensures Valid() && ckState == old(ckState)[step := to] && w.trace == old(w.trace) + [Moved(step, to)]
    {
      CoupledMoved(w.trace, step, to, ckState, ckManifest, last);
      w.Record(Moved(step, to));
      ckState := ckState[step := to];
    }

    /** Hashes all the step's files, once; `None` when one is missing. Hashing may fail with an exception. */
    method MakeManifest(step: int) returns (manifest: Option<Manifest>, raised: bool)
      requires Valid() && State(step) == Untouched
      modifies this`ckManifest, w`trace
      ensures Valid() && ckState == old(ckState)
      ensures step in old(ckManifest) ==> manifest == Some(old(ckManifest)[step]) && !raised
      ensures step in old(ckManifest) ==> ckManifest == old(ckManifest)
      ensures !raised && manifest.Some? ==> ckManifest == old(ckManifest)[step := manifest.value]
      ensures !raised && manifest.Some? ==> manifest.value.Keys == Files(step)
      ensures w.trace == if !raised && manifest.None? then old(w.trace) + [FileMissing(step)] else old(w.trace)
    {
      if step in ckManifest { return Some(ckManifest[step]), false; }
      var rels := Rels(step);
      var m: Manifest := map[];
      for i := 0 to |rels|
        invariant Valid() && ckState == old(ckState) && ckManifest == old(ckManifest) && w.trace == old(w.trace)
        invariant m.Keys == set file | file in rels[..i]
      {
        var missing: bool, unreadable: bool, digest: int := *, *, *;
        if missing {
          assert StateIn(ckState, step) == StateAfter(w.trace, step);
          Note(FileMissing(step));
          return None, false;
        }
        if unreadable { return None, true; }
        assert rels[..i + 1] == rels[..i] + [rels[i]];
        m := m[rels[i] := digest];
      }
      assert rels[..|rels|] == rels;
      CoupledManifest(w.trace, step, m, ckState, ckManifest, last);
      ckManifest := ckManifest[step := m];
      return Some(m), false;
    }

    // ---- storing files -----------------------------------------------------------------------------------

    /** Since the history was `s`, files were stored and nothing else was done. */
    ghost predicate Storing(s: Trace)
      reads this, w
    {
      Valid() && OnlyStoring(s, w.trace)
    }

    /** Notes one more event of storing files. */
    ghost method NoteHere(s: Trace, e: Event)
      requires Storing(s) && e != Fenced && IsStoring(e) && Allowed(w.trace, e, w.plan)
      modifies w`trace
      ensures Storing(s) && w.trace == old(w.trace) + [e]
      ensures Tally(w.trace, APut) == Tally(old(w.trace), APut) + if e.PutFile? then 1 else 0
    {
      TallyNext(w.trace, e, APut);
      Note(e);
    }

    method GoingHere(ghost s: Trace) returns (going: bool)
      requires Storing(s)
      modifies w
      ensures Storing(s) && going == (!w.uploaderStop && !w.fenced)
      ensures w.trace == old(w.trace) || w.trace == old(w.trace) + [Fenced]
      ensures Tally(w.trace, APut) == Tally(old(w.trace), APut)
    {
      TallyNext(w.trace, Fenced, APut);
      going := Going();
    }

    /** PUTs what is not stored yet; `done` are the files stored so far, in this call of the step. */
    method PutFiles(ghost s: Trace, step: int, manifest: Manifest, done: set<string>)
      returns (r: PutResult, done': set<string>)
      requires Storing(s) && Post(CkptUrl(step, manifest)) in w.trace
      requires forall file :: file in done ==> PutFile(step, file, true) in w.trace
      modifies w
      ensures Storing(s) && old(w.trace) <= w.trace
      ensures forall file :: file in done' ==> PutFile(step, file, true) in w.trace
      ensures r == AllPut ==> Stored(w.trace, step, manifest)
    {
      done' := done;
      var left := manifest.Keys;
      while left != {}
        invariant Storing(s) && old(w.trace) <= w.trace && left <= manifest.Keys
        invariant forall file :: file in done' ==> PutFile(step, file, true) in w.trace
        invariant forall file :: file in manifest && file !in left ==> file in done'
        decreases |left|
      {
        var file :| file in left;
        left := left - {file};
        if file !in done' {
          var given: bool := *;
          if !given { return PutFailed, done'; }
          var put := PutOne(s, step, manifest, file);
          if put != AllPut { return put, done'; }
          done' := done' + {file};
        }
      }
      return AllPut, done';
    }

    /** Up to three tries for one file. */
    method PutOne(ghost s: Trace, step: int, manifest: Manifest, file: string) returns (r: PutResult)
      requires Storing(s) && Post(CkptUrl(step, manifest)) in w.trace && file in manifest
      modifies w
      ensures Storing(s) && old(w.trace) <= w.trace && Tally(w.trace, APut) <= Tally(old(w.trace), APut) + PUT_TRIES
      ensures r == AllPut ==> PutFile(step, file, true) in w.trace
    {
      for attempt := 0 to PUT_TRIES
        invariant Storing(s) && old(w.trace) <= w.trace
        invariant Tally(w.trace, APut) <= Tally(old(w.trace), APut) + attempt
      {
        var once := TryPut(s, step, manifest, file);
        if once.Some? { return once.value; }
        if attempt < PUT_TRIES - 1 { Wait(s, 2.0 * (attempt + 1) as real); }
      }
      return PutFailed;
    }

    /** One try, after a look at the flags; `None` when it is worth another. */
    method TryPut(ghost s: Trace, step: int, manifest: Manifest, file: string) returns (r: Option<PutResult>)
      requires Storing(s) && Post(CkptUrl(step, manifest)) in w.trace && file in manifest
      modifies w
      ensures Storing(s) && old(w.trace) <= w.trace && Tally(w.trace, APut) <= Tally(old(w.trace), APut) + 1
      ensures r == Some(AllPut) ==> PutFile(step, file, true) in w.trace
    {
      var going := GoingHere(s);
      if !going { return Some(PutFailed); }
      NoteHere(s, Looked);
      var status: int, heard: bool := *, *;
      SendPut(s, step, manifest, file, heard && 200 <= status < 300);
      if heard && 200 <= status < 300 { return Some(AllPut); }
      return if heard && status == 403 then Some(Forbidden) else None;
    }

    /** The other threads run between a clear look and its request. */
    method InterfereClear(ghost s: Trace, ghost e: Event)
      requires Storing(s) && ClearLook(w.trace) && e in w.trace
      modifies w
      ensures Storing(s) && ClearLook(w.trace) && old(w.trace) <= w.trace && e in w.trace
      ensures Tally(w.trace, APut) == Tally(old(w.trace), APut)
    {
      LookStays(w.trace);
      var going := GoingHere(s);
    }

    ghost method NotePut(s: Trace, step: int, manifest: Manifest, file: string, ok: bool)
      requires Storing(s) && Post(CkptUrl(step, manifest)) in w.trace && file in manifest && ClearLook(w.trace)
      modifies w`trace
      ensures Storing(s) && w.trace == old(w.trace) + [PutFile(step, file, ok)]
      ensures Tally(w.trace, APut) == Tally(old(w.trace), APut) + 1
    {
      PutAllowed(w.trace, w.plan, step, manifest, file, ok);
      NoteHere(s, PutFile(step, file, ok));
    }

    method PassTime(ghost s: Trace)
      requires Storing(s)
      modifies w`now
      ensures Storing(s)
    {
      var passed := w.Monotonic();
    }

    /** The one PUT that was found clear; the fence may still be set on the way. */
    method SendPut(ghost s: Trace, step: int, manifest: Manifest, file: string, ok: bool)
      requires Storing(s) && Post(CkptUrl(step, manifest)) in w.trace && file in manifest && ClearLook(w.trace)
      modifies w
      ensures Storing(s) && old(w.trace) <= w.trace && Tally(w.trace, APut) == Tally(old(w.trace), APut) + 1
      ensures PutFile(step, file, ok) in w.trace
    {
      InterfereClear(s, Post(CkptUrl(step, manifest)));
      NotePut(s, step, manifest, file, ok);
      PassTime(s);
    }

    method Wait(ghost s: Trace, seconds: real)
      requires Storing(s) && seconds >= 0.0
      modifies w
      ensures Storing(s) && w.trace == old(w.trace) + [Slept(old(w.now), seconds)]
      ensures Tally(w.trace, APut) == Tally(old(w.trace), APut)
    {
      ghost var e := Slept(w.now, seconds);
      TallyNext(w.trace, e, APut);
      CoupledNext(w.trace, e, ckState, ckManifest, last);
      w.Sleep(seconds);
    }

    /** One more ask for the links. */
    ghost method NoteAsk()
      requires Valid()
      modifies w`trace
      ensures Valid() && w.trace == old(w.trace) + [Tried]
      ensures Tally(w.trace, ATry) == Tally(old(w.trace), ATry) + 1
      ensures Tally(w.trace, APost) == Tally(old(w.trace), APost)
    {
      TallyNext(w.trace, Tried, ATry);
      TallyNext(w.trace, Tried, APost);
      Note(Tried);
    }

    /** The links were given: the files are put, and with them the step. */
    method PutAll(step: int, m: Manifest, done: set<string>) returns (stored: bool, again: bool, done': set<string>)
      requires Valid() && State(step) == Untouched && Post(CkptUrl(step, m)) in w.trace
      requires forall file :: file in done ==> PutFile(step, file, true) in w.trace
      modifies this`ckState, w
      ensures Valid() && ckState == if stored then old(ckState)[step := Put] else old(ckState)
      ensures forall file :: file in done' ==> PutFile(step, file, true) in w.trace
      ensures Tally(w.trace, APost) == Tally(old(w.trace), APost) && Tally(w.trace, ATry) == Tally(old(w.trace), ATry)
      ensures stored ==> !again
    {
      ghost var s := w.trace;
      assert StateIn(ckState, step) == StateAfter(w.trace, step);
      var r: PutResult;
      r, done' := PutFiles(s, step, m, done);
      StoringKeeps(s, w.trace, step);
      TallyKept(s, w.trace, ATry);
      stored, again := r == AllPut, r == Forbidden;
      if stored {
        TallyNext(w.trace, Moved(step, Put), APost);
        TallyNext(w.trace, Moved(step, Put), ATry);
        SetState(step, Put);
      }
    }

    /** How one answer to `upload-url` leaves the step: `again` when the links have to be asked for anew. */
    method StoreOnce(step: int, m: Manifest, done: set<string>)
      returns (v: Verdict, stored: bool, again: bool, done': set<string>)
      requires Valid() && State(step) == Untouched && step in ckManifest && ckManifest[step] == m
      requires forall file :: file in done ==> PutFile(step, file, true) in w.trace
      modifies this`ckState, w
      ensures Valid() && ckState == if stored then old(ckState)[step := Put] else old(ckState)
      ensures forall file :: file in done' ==> PutFile(step, file, true) in w.trace
      ensures Tally(w.trace, APost) <= Tally(old(w.trace), APost) + API_POSTS_MAX
      ensures Tally(w.trace, ATry) == Tally(old(w.trace), ATry) + 1
      ensures v.Settled? ==> !stored && !again && Final(v.state) && MayMove(w.trace, step, v.state)
      ensures stored ==> !again
    {
      stored, again, done' := false, false, done;
      NoteAsk();
      ghost var was := w.trace;
      assert StateIn(ckState, step) == StateAfter(w.trace, step);
      var a := Call(CkptUrl(step, m));
      CalledKeeps(was, w.trace, CkptUrl(step, m), step);
      if a.Answer? && a.status == 200 {
        stored, again, done' := PutAll(step, m, done);
        return NextTick, stored, again, done';
      }
      if a == Answer(409, AlreadyReady) { return Settled(Uploaded), false, false, done'; }
      if a == Answer(409, AlreadyRefused) { return Settled(Skipped), false, false, done'; }
      if a.Answer? && a.status == 422 { return Settled(Skipped), false, false, done'; }
      return NextTick, false, false, done';
    }

    /** Asks for the links, four times at most, until the files are stored. */
    method AskAndStore(step: int, m: Manifest) returns (v: Verdict, stored: bool)
      requires Valid() && State(step) == Untouched && step in ckManifest && ckManifest[step] == m
      modifies this`ckState, w
      ensures Valid() && ckState == if stored then old(ckState)[step := Put] else old(ckState)
      ensures Tally(w.trace, ATry) <= Tally(old(w.trace), ATry) + PUT_REASK_MAX + 1
      ensures Tally(w.trace, APost) <= Tally(old(w.trace), APost) + (PUT_REASK_MAX + 1) * API_POSTS_MAX
      ensures v.Settled? ==> !stored && Final(v.state) && MayMove(w.trace, step, v.state)
    {
      var done := {};
      for asked := 0 to PUT_REASK_MAX + 1
        invariant Valid() && ckState == old(ckState)
        invariant forall file :: file in done ==> PutFile(step, file, true) in w.trace
        invariant Tally(w.trace, ATry) == Tally(old(w.trace), ATry) + asked
        invariant Tally(w.trace, APost) <= Tally(old(w.trace), APost) + asked * API_POSTS_MAX
      {
        var again: bool;
        v, stored, again, done := StoreOnce(step, m, done);
        if !again { return; }
      }
      return NextTick, false;
    }

    /** Gets the files stored and the state to `Put`, or says why not. */
    method StoreFiles(step: int) returns (v: Verdict, stored: bool)
      requires Valid() && State(step) == Untouched
      modifies this`ckState, this`ckManifest, w
      ensures Valid() && ckState == if stored then old(ckState)[step := Put] else old(ckState)
      ensures Tally(w.trace, ATry) <= Tally(old(w.trace), ATry) + PUT_REASK_MAX + 1
      ensures Tally(w.trace, APost) <= Tally(old(w.trace), APost) + (PUT_REASK_MAX + 1) * API_POSTS_MAX
      ensures v.Settled? ==> !stored && Final(v.state) && MayMove(w.trace, step, v.state)
    {
      TallyNext(w.trace, FileMissing(step), APost);
      TallyNext(w.trace, FileMissing(step), ATry);
      var manifest, raised := MakeManifest(step);
      if raised { return Raised, false; }
      if manifest.None? { return Settled(Skipped), false; }
      v, stored := AskAndStore(step, manifest.value);
    }

    /** One step on one tick. */
    method UploadStep(step: int) returns (v: Verdict)
      requires Valid() && !Final(State(step))
      modifies this`ckState, this`ckManifest, w
      ensures Valid() && !Final(State(step))
      ensures ckState == old(ckState) || ckState == old(ckState)[step := Put]
      ensures v.Settled? ==> Final(v.state) && MayMove(w.trace, step, v.state)
    {
      if State(step) != Put {
        var stored: bool;
        v, stored := StoreFiles(step);
        if !stored { return v; }
      }
      assert StateIn(ckState, step) == StateAfter(w.trace, step);
      var a := Call(CkptDone(step));
      if a.Answer? && a.status == 200 { return Settled(Uploaded); }
      if a == Answer(409, NotUploading) { return Settled(Skipped); }
      if a.Answer? && a.status == 422 { return Settled(Skipped); }
      return NextTick;
    }

    predicate Removable(step: int, newest: int)
      requires w.plan.mirrorEvery > 0
      reads this
    {
      step < newest && (Final(State(step)) || !MustUpload(w.plan, step) || step <= w.plan.resumeStep)
    }

    /** Removes exactly the old checkpoints that are settled or never needed. */
    method Prune(newest: int, present: set<int>)
      requires Valid() && last == Some(newest)
      modifies w`trace
      ensures Valid() && old(w.trace) <= w.trace
      ensures forall s :: s in present && Removable(s, newest) ==> Pruned(s) in w.trace[|old(w.trace)|..]
      ensures forall k :: |old(w.trace)| <= k < |w.trace| ==>
        w.trace[k].Pruned? && w.trace[k].step in present &&
          Removable(w.trace[k].step, newest)
    {
      var left := present;
      ghost var n := |w.trace|;
      while left != {}
        invariant Valid() && old(w.trace) <= w.trace && left <= present
        invariant forall s :: s in present && s !in left && Removable(s, newest) ==> Pruned(s) in w.trace[n..]
        invariant forall k :: n <= k < |w.trace| ==>
          w.trace[k].Pruned? && w.trace[k].step in present &&
            Removable(w.trace[k].step, newest)
        decreases |left|
      {
        ghost var some := Member(left);
        var s :| s in left;
        left := left - {s};
        if s < newest {
          if Final(State(s)) || !MustUpload(w.plan, s) || s <= w.plan.resumeStep {
            assert StateIn(ckState, s) == StateAfter(w.trace, s);
            ghost var was := w.trace;
            Note(Pruned(s));
            assert w.trace[n..] == was[n..] + [Pruned(s)];
          }
        }
      }
    }

    predicate ToDo(step: int, newest: int)
      requires w.plan.mirrorEvery > 0
      reads this
    {
      w.plan.resumeStep < step <= newest && !Final(State(step)) && (MustUpload(w.plan, step) || step == newest)
    }

    /** `_newest_complete()`: what the disk shows. */
    ghost method SeeNewest(newest: int)
      requires Valid()
      modifies this`last, w`trace
      ensures Valid() && last == Some(newest) && w.trace == old(w.trace) + [SawNewest(newest)]
    {
      CoupledSaw(w.trace, newest, ckState, ckManifest, last);
      w.Record(SawNewest(newest));
      last := Some(newest);
    }

    /**
      * One tick; the newest complete checkpoint and the directories present are whatever the disk shows.
      * A tick that gets to its end has removed every old checkpoint that is settled or never needed.
      */
    method Tick() returns (raised: bool, ghost ended: bool, ghost seen: set<int>)
      requires Valid()
      modifies this, w
      ensures Valid()
      ensures ended ==> last.Some? && forall s :: s in seen && Removable(s, last.value) ==> Pruned(s) in w.trace
    {
      var complete: bool, newest: int, present: set<int> := *, *, *;
      ended, seen := false, present;
      if !complete { return false, ended, seen; }
      SeeNewest(newest);
      var wanted := set s | s in present && ToDo(s, newest);
      var todo := Ascending(wanted);
      var done: bool;
      raised, done := UploadAll(todo);
      if !done { return raised, ended, seen; }
      Prune(newest, present);
      return false, true, present;
    }

    /** The loop of a tick over the steps to do; `done` when it came to its end. */
    method UploadAll(todo: seq<int>) returns (raised: bool, done: bool)
      requires Valid() && forall i, j :: 0 <= i < j < |todo| ==> todo[i] < todo[j]
      requires forall i :: 0 <= i < |todo| ==> !Final(State(todo[i]))
      modifies this`ckState, this`ckManifest, w
      ensures Valid()
    {
      for i := 0 to |todo|
        invariant Valid()
        invariant forall j :: i <= j < |todo| ==> !Final(State(todo[j]))
      {
        var going := Going();
        if !going { return false, false; }
        var s := todo[i];
        var v := UploadStep(s);
        if v.Raised? { return true, false; }
        if v.Settled? { SetState(s, v.state); }
      }
      return false, true;
    }

    /**
      * The loop, for any number of ticks; a tick that raises is followed by the next. In the end every
      * checkpoint was stored before its `ckpt-done`, moved only forward and was settled before it was
      * pruned, and a request began once fenced only by losing the race for the fence, and then just one.
      */
    method Loop(ticks: nat)
      requires Valid()
      modifies this, w
      ensures Valid() && UploadsRight(w.trace, w.plan)
      ensures Late(w.trace) == if RacedOnce(w.trace) then 1 else 0
      ensures forall step :: State(step) == Uploaded ==>
        (AllStored(w.trace, step) && Accepted(w.trace, step)) || HadAlready(w.trace, step)
    {
      for i := 0 to ticks
        invariant Valid()
      {
        var going := Going();
        if w.uploaderStop { break; }
        var raised, ended, seen := Tick();
      }
      SafeUploads(w.trace, w.plan);
      LateOnlyByRace(w.trace, w.plan);
      forall step | State(step) == Uploaded
        ensures (AllStored(w.trace, step) && Accepted(w.trace, step)) || HadAlready(w.trace, step) {
        assert StateIn(ckState, step) == StateAfter(w.trace, step);
        UploadedMeans(w.trace, w.plan, step);
      }
    }
  }

  /** `sorted(...)`. */
  method Ascending(s: set<int>) returns (r: seq<int>)
    ensures forall i, j :: 0 <= i < j < |r| ==> r[i] < r[j]
    ensures forall i :: 0 <= i < |r| ==> r[i] in s
    ensures forall x :: x in s ==> x in r
  {
    r := [];
    var left := s;
    while left != {}
      invariant left <= s
      invariant forall i, j :: 0 <= i < j < |r| ==> r[i] < r[j]
      invariant forall i :: 0 <= i < |r| ==> r[i] in s
      invariant forall x :: x in s && x !in left ==> x in r
      invariant forall i, x :: 0 <= i < |r| && x in left ==> r[i] < x
      decreases |left|
    {
      HasLeast(left);
      var m :| m in left && forall x :: x in left ==> m <= x;
      left := left - {m};
      r := r + [m];
    }
  }

  lemma Member<T>(s: set<T>) returns (x: T)
    requires s != {}
    ensures x in s
  {
    x :| x in s;
  }

  lemma {:induction false} HasLeast(s: set<int>)
    requires s != {}
    ensures exists m :: m in s && forall x :: x in s ==> m <= x
    decreases |s|
  {
    var y := Member(s);
    var rest := s - {y};
    if rest != {} {
      HasLeast(rest);
      var m :| m in rest && forall x :: x in rest ==> m <= x;
      var least := if y < m then y else m;
      forall x | x in s ensures least <= x { assert x == y || x in rest; }
      assert least in s;
    } else {
      forall x | x in s ensures y <= x { assert x !in rest; }
    }
  }

}

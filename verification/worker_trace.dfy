/**
  * What one thread of a managed training run has done, as a list of events, and which event each history
  * allows next. The theorems about runs are lemmas about lists in which every event was allowed.
  */
module WorkerTrace {

  import opened Common

  /** File names with their digests; a step's manifest is fixed once its files were hashed. */
  type Manifest = map<string, int>

  datatype CkState = Untouched | Put | Uploaded | Skipped

  datatype Code = AlreadyReady | AlreadyRefused | NotUploading | OtherCode

  /** A worker-API answer, or none at all. */
  datatype Answer = Answer(status: int, code: Code) | NoAnswer

  datatype Action = Start | Finish | CkptBad | LogUrl | CkptUrl(step: int, manifest: Manifest) | CkptDone(step: int)

  /**
    * `Looked` is a look at the fence that found it clear, right before a request. `Fenced` is the fence
    * being set, by this thread or by another. `SawNewest` is the newest complete checkpoint being looked
    * up. `Tried` is one more try of a loop that repeats a call. `Gone` is LeRobot having exited or been killed.
    */
  datatype Event =
    | Looked
    | Fenced
    | Post(action: Action)
    | Answered(action: Action, answer: Answer)
    | PutFile(step: int, file: string, ok: bool)
    | PutLog
    | Slept(begin: real, seconds: real)
    | FileMissing(step: int)
    | Moved(step: int, to: CkState)
    | SawNewest(newest: int)
    | Pruned(step: int)
    | Tried
    | LoopBegun(at: real)
    | LoopEnded
    | Starting
    | StartAccepted
    | RunningWrite(ok: bool)
    | Spawned
    | Gone
    | Finishing

  type Trace = seq<Event>

  /** What the `start` answer says of the checkpoints. */
  datatype Plan = Plan(mirrorEvery: int, totalSteps: int, resumeStep: int)

  const START_LOOP_MAX := 5
  const START_RETRY_GIVEUP_S := 600.0

  // ---- readings of a history ---------------------------------------------------------------------------

  function StateAfter(t: Trace, step: int): CkState {
    if t == [] then Untouched
    else
      var e := t[|t| - 1];
      if e.Moved? && e.step == step then e.to else StateAfter(t[..|t| - 1], step)
  }

  /** The newest complete checkpoint as it was last looked up. */
  function NewestIn(t: Trace): Option<int> {
    if t == [] then None
    else
      var e := t[|t| - 1];
      if e.SawNewest? then Some(e.newest) else NewestIn(t[..|t| - 1])
  }

  predicate IsRequest(e: Event) { e.Post? || e.PutFile? }

  /** Requests begun after the fence was set. */
  function Late(t: Trace): nat {
    if t == [] then 0
    else
      var before := t[..|t| - 1];
      Late(before) + if IsRequest(t[|t| - 1]) && Fenced in before then 1 else 0
  }

  /** The thread looked, found the fence clear, and has done nothing since; others may have set it. */
  predicate ClearLook(t: Trace) {
    t != [] && (t[|t| - 1] == Looked || (t[|t| - 1] == Fenced && ClearLook(t[..|t| - 1])))
  }

  datatype Kind = APost | APut | ATry | AStart | ASpawn | AFinish

  predicate Of(e: Event, kind: Kind) {
    match kind
    case APost => e.Post?
    case APut => e.PutFile?
    case ATry => e.Tried?
    case AStart => e.Starting?
    case ASpawn => e.Spawned?
    case AFinish => e.Finishing?
  }

  /** How many events of a kind there were. */
  function Tally(t: Trace, kind: Kind): nat {
    if t == [] then 0 else Tally(t[..|t| - 1], kind) + if Of(t[|t| - 1], kind) then 1 else 0
  }

  /** LeRobot runs: it was spawned, and since then neither ended nor was killed by the fence. */
  predicate Alive(t: Trace) {
    if t == [] then false
    else
      var e := t[|t| - 1];
      e.Spawned? || (!e.Fenced? && !e.Gone? && Alive(t[..|t| - 1]))
  }

  /** Every file of the manifest was stored. */
  ghost predicate Stored(t: Trace, step: int, manifest: Manifest) {
    forall file :: file in manifest ==> PutFile(step, file, true) in t
  }

  /** The step's manifest was sent, and all its files were stored. */
  ghost predicate AllStored(t: Trace, step: int) {
    exists m :: Post(CkptUrl(step, m)) in t && Stored(t, step, m)
  }

  ghost predicate OneManifest(t: Trace, step: int, manifest: Manifest) {
    forall m :: Post(CkptUrl(step, m)) in t ==> m == manifest
  }

  predicate Final(state: CkState) { state == Uploaded || state == Skipped }

  predicate MustUpload(plan: Plan, step: int)
    requires plan.mirrorEvery > 0
  {
    step % plan.mirrorEvery == 0 || step == plan.totalSteps
  }

  // ---- what a history allows -----------------------------------------------------------------------------

  ghost predicate MayPost(t: Trace, action: Action) {
    match action
    case CkptUrl(step, m) => StateAfter(t, step) == Untouched && OneManifest(t, step, m)
    case CkptDone(step) => StateAfter(t, step) == Put
    case _ => true
  }

  predicate IsAnswer(e: Event, step: int, done: bool) {
    && e.Answered? && e.answer.Answer?
    && (if done then e.action == CkptDone(step) else e.action.CkptUrl? && e.action.step == step)
  }

  /** What settles a checkpoint before its files are stored. */
  predicate SettlesEarly(e: Event, step: int, to: CkState) {
    if to == Uploaded then IsAnswer(e, step, false) && e.answer == Answer(409, AlreadyReady)
    else if e == FileMissing(step) then true
    else IsAnswer(e, step, false) && (e.answer.status == 422 || e.answer == Answer(409, AlreadyRefused))
  }

  /** And what settles it after `ckpt-done`. */
  predicate SettlesDone(e: Event, step: int, to: CkState) {
    && IsAnswer(e, step, true)
    && if to == Uploaded then e.answer.status == 200
       else e.answer.status == 422 || e.answer == Answer(409, NotUploading)
  }

  /** Why a checkpoint may take a new state: its files are stored, or what was heard last settles it. */
  ghost predicate MayMove(t: Trace, step: int, to: CkState) {
    match to
    case Untouched => false
    case Put => StateAfter(t, step) == Untouched && AllStored(t, step)
    case _ => t != [] && (SettlesEarly(t[|t| - 1], step, to) || SettlesDone(t[|t| - 1], step, to))
  }

  predicate Older(step: int, newest: Option<int>) { newest.Some? && step < newest.value }

  ghost predicate MayPrune(t: Trace, plan: Plan, step: int)
    requires plan.mirrorEvery > 0
  {
    Older(step, NewestIn(t)) && (Final(StateAfter(t, step)) || !MustUpload(plan, step) || step <= plan.resumeStep)
  }

  ghost predicate Allowed(t: Trace, e: Event, plan: Plan)
    requires plan.mirrorEvery > 0
  {
    match e
    case Looked => Fenced !in t
    case Post(action) => ClearLook(t) && MayPost(t, action)
    case Answered(action, _) => t != [] && t[|t| - 1] == Post(action)
    case PutFile(step, file, _) => ClearLook(t) && exists m :: Post(CkptUrl(step, m)) in t && file in m
    case FileMissing(step) => StateAfter(t, step) == Untouched
    case Moved(step, to) => MayMove(t, step, to)
    case Pruned(step) => MayPrune(t, plan, step)
    case Starting => Tally(t, AStart) < START_LOOP_MAX
    case Spawned => Spawned !in t && StartAccepted in t && RunningWrite(true) in t
    case Finishing => Finishing !in t
    case _ => true
  }

  ghost predicate Safe(t: Trace, plan: Plan)
    requires plan.mirrorEvery > 0
  {
    t == [] || (Safe(t[..|t| - 1], plan) && Allowed(t[..|t| - 1], t[|t| - 1], plan))
  }

  lemma SafeNext(t: Trace, e: Event, plan: Plan)
    requires plan.mirrorEvery > 0 && Safe(t, plan) && Allowed(t, e, plan)
    ensures Safe(t + [e], plan)
  {
    assert (t + [e])[..|t|] == t;
  }

  lemma LookStays(t: Trace)
    requires ClearLook(t)
    ensures ClearLook(t + [Fenced])
  {
    assert (t + [Fenced])[..|t|] == t;
  }

  lemma PutAllowed(t: Trace, plan: Plan, step: int, manifest: Manifest, file: string, ok: bool)
    requires plan.mirrorEvery > 0 && ClearLook(t) && Post(CkptUrl(step, manifest)) in t && file in manifest
    ensures Allowed(t, PutFile(step, file, ok), plan)
  {
  }

  lemma SafeOne(e: Event, plan: Plan)
    requires plan.mirrorEvery > 0 && Allowed([], e, plan)
    ensures Safe([e], plan)
  {
    assert [e][..0] == [];
  }

  lemma {:induction false} SafePrefix(t: Trace, plan: Plan, k: nat)
    requires plan.mirrorEvery > 0 && Safe(t, plan) && k < |t|
    ensures Safe(t[..k], plan) && Allowed(t[..k], t[k], plan)
  {
    if k < |t| - 1 {
      SafePrefix(t[..|t| - 1], plan, k);
      assert t[..|t| - 1][..k] == t[..k];
    }
  }

  // ---- checkpoints ---------------------------------------------------------------------------------------

  /** An answer follows its own request, which was allowed when it was sent and moved nothing. */
  lemma AnswerFollows(t: Trace, plan: Plan, step: int)
    requires plan.mirrorEvery > 0 && Safe(t, plan) && t != [] && t[|t| - 1].Answered?
    ensures var n := |t| - 2;
      n >= 0 && t[n] == Post(t[n + 1].action) && MayPost(t[..n], t[n + 1].action) &&
        StateAfter(t, step) == StateAfter(t[..n], step)
  {
    var n := |t| - 2;
    assert t[..n + 1][..n] == t[..n];
  }

  /** A checkpoint settled early was untouched, one settled by `ckpt-done` was put. */
  lemma SettledFrom(t: Trace, plan: Plan, step: int, to: CkState)
    requires plan.mirrorEvery > 0 && Safe(t, plan) && Final(to) && MayMove(t, step, to)
    ensures StateAfter(t, step) == if SettlesEarly(t[|t| - 1], step, to) then Untouched else Put
  {
    if t[|t| - 1].Answered? { AnswerFollows(t, plan, step); }
  }

  /** When the step's state is not the first one, the move that gave it that state. */
  lemma {:induction false} MovedAt(t: Trace, step: int) returns (k: nat)
    requires StateAfter(t, step) != Untouched
    ensures k < |t| && t[k] == Moved(step, StateAfter(t, step))
  {
    var n := |t| - 1;
    if t[n].Moved? && t[n].step == step { return n; }
    k := MovedAt(t[..n], step);
  }

  lemma AllStoredMore(s: Trace, t: Trace, step: int)
    requires AllStored(s, step) && forall e :: e in s ==> e in t
    ensures AllStored(t, step)
  {
    var m :| Post(CkptUrl(step, m)) in s && Stored(s, step, m);
    assert Post(CkptUrl(step, m)) in t && Stored(t, step, m);
  }

  lemma PutMeansStored(t: Trace, plan: Plan, step: int)
    requires plan.mirrorEvery > 0 && Safe(t, plan) && StateAfter(t, step) == Put
    ensures AllStored(t, step)
  {
    var k := MovedAt(t, step);
    SafePrefix(t, plan, k);
    AllStoredMore(t[..k], t, step);
  }

  /** All the manifests ever sent for a step are the same. */
  lemma ManifestFixed(t: Trace, plan: Plan, step: int, m: Manifest)
    requires plan.mirrorEvery > 0 && Safe(t, plan) && Post(CkptUrl(step, m)) in t
    ensures OneManifest(t, step, m)
  {
    var i :| 0 <= i < |t| && t[i] == Post(CkptUrl(step, m));
    forall m' | Post(CkptUrl(step, m')) in t ensures m' == m {
      var j :| 0 <= j < |t| && t[j] == Post(CkptUrl(step, m'));
      SafePrefix(t, plan, if i < j then j else i);
      if i < j { assert t[..j][i] == t[i]; }
      if j < i { assert t[..i][j] == t[j]; }
    }
  }

  /** Before the event at `k`, every file of the step's one manifest was stored. */
  ghost predicate StoredBefore(t: Trace, k: nat, step: int)
    requires k <= |t|
  {
    exists m :: Post(CkptUrl(step, m)) in t[..k] && Stored(t[..k], step, m) && OneManifest(t, step, m)
  }

  lemma PutMeansStoredBefore(t: Trace, plan: Plan, k: nat, step: int)
    requires plan.mirrorEvery > 0 && Safe(t, plan) && k < |t| && StateAfter(t[..k], step) == Put
    ensures StoredBefore(t, k, step)
  {
    SafePrefix(t, plan, k);
    PutMeansStored(t[..k], plan, step);
    var m :| Post(CkptUrl(step, m)) in t[..k] && Stored(t[..k], step, m);
    ManifestFixed(t, plan, step, m);
  }

  /** A `ckpt-done` is sent only when every file of the step's one manifest was stored before it. */
  lemma DoneMeansStored(t: Trace, plan: Plan, k: nat)
    requires plan.mirrorEvery > 0 && Safe(t, plan) && k < |t| && t[k].Post? && t[k].action.CkptDone?
    ensures StoredBefore(t, k, t[k].action.step)
  {
    SafePrefix(t, plan, k);
    PutMeansStoredBefore(t, plan, k, t[k].action.step);
  }

  /** A state is left only for a later one, and a final one never. */
  predicate NoLaterThan(a: CkState, b: CkState) {
    a == b || a == Untouched || (a == Put && Final(b))
  }

  lemma {:induction false} StatesMoveForward(t: Trace, plan: Plan, i: nat, j: nat, step: int)
    requires plan.mirrorEvery > 0 && Safe(t, plan) && i <= j <= |t|
    ensures NoLaterThan(StateAfter(t[..i], step), StateAfter(t[..j], step))
    decreases j
  {
    if i < j {
      StatesMoveForward(t, plan, i, j - 1, step);
      SafePrefix(t, plan, j - 1);
      assert t[..j][..j - 1] == t[..j - 1];
      var e := t[j - 1];
      if e.Moved? && e.step == step && Final(e.to) { SettledFrom(t[..j - 1], plan, step, e.to); }
    }
  }

  /**
    * The only ways past `Put`: a checkpoint becomes uploaded straight away exactly when the API just said
    * that it has it already, and skipped straight away exactly when a file is missing or `upload-url` just
    * refused it. Otherwise its files are stored and `ckpt-done` was just answered.
    */
  lemma StraightIff(t: Trace, plan: Plan, k: nat)
    requires plan.mirrorEvery > 0 && Safe(t, plan) && k < |t| && t[k].Moved? && Final(t[k].to)
    ensures var step, to := t[k].step, t[k].to;
      && k > 0
      && (StateAfter(t[..k], step) == Untouched <==> SettlesEarly(t[k - 1], step, to))
      && (StateAfter(t[..k], step) == Put <==> SettlesDone(t[k - 1], step, to))
      && (StateAfter(t[..k], step) == Put ==> StoredBefore(t, k, step))
  {
    var step, to := t[k].step, t[k].to;
    SafePrefix(t, plan, k);
    SettledFrom(t[..k], plan, step, to);
    if StateAfter(t[..k], step) == Put { PutMeansStoredBefore(t, plan, k, step); }
  }

  /** `ckpt-done` was answered with a 200. */
  ghost predicate Accepted(t: Trace, step: int) { exists code :: Answered(CkptDone(step), Answer(200, code)) in t }

  /** `upload-url` was answered with a 409 `already_ready`. */
  ghost predicate HadAlready(t: Trace, step: int) {
    exists m :: Answered(CkptUrl(step, m), Answer(409, AlreadyReady)) in t
  }

  /** An uploaded checkpoint has all its files stored and its `ckpt-done` accepted, or the API had it already. */
  lemma UploadedMeans(t: Trace, plan: Plan, step: int)
    requires plan.mirrorEvery > 0 && Safe(t, plan) && StateAfter(t, step) == Uploaded
    ensures (AllStored(t, step) && Accepted(t, step)) || HadAlready(t, step)
  {
    var k := MovedAt(t, step);
    StraightIff(t, plan, k);
    SafePrefix(t, plan, k);
    if SettlesDone(t[k - 1], step, Uploaded) {
      PutMeansStored(t[..k], plan, step);
      AllStoredMore(t[..k], t, step);
      assert Answered(CkptDone(step), Answer(200, t[k - 1].answer.code)) in t;
    } else {
      assert Answered(CkptUrl(step, t[k - 1].action.manifest), Answer(409, AlreadyReady)) in t;
    }
  }

  /** What the API had already, was refused before, or lacks a file, never is `Put`. */
  lemma StraightToUploaded(plan: Plan, step: int, m: Manifest)
    requires plan.mirrorEvery > 0
    ensures var url := CkptUrl(step, m);
      Safe([Looked] + [Post(url)] + [Answered(url, Answer(409, AlreadyReady))] + [Moved(step, Uploaded)], plan)
  {
    var url := CkptUrl(step, m);
    var looked := [Looked];
    var posted := looked + [Post(url)];
    var answered := posted + [Answered(url, Answer(409, AlreadyReady))];
    SafeOne(Looked, plan);
    SafeNext(looked, Post(url), plan);
    SafeNext(posted, Answered(url, Answer(409, AlreadyReady)), plan);
    assert SettlesEarly(answered[2], step, Uploaded);
    SafeNext(answered, Moved(step, Uploaded), plan);
  }

  lemma StraightToSkipped(plan: Plan, step: int)
    requires plan.mirrorEvery > 0
    ensures Safe([FileMissing(step)] + [Moved(step, Skipped)], plan)
  {
    var missing := [FileMissing(step)];
    SafeOne(FileMissing(step), plan);
    assert SettlesEarly(missing[0], step, Skipped);
    SafeNext(missing, Moved(step, Skipped), plan);
  }

  /** The newest complete checkpoint only ever moves forward, as far as it was looked up. */
  ghost predicate MovesForward(t: Trace) {
    forall i, j :: 0 <= i < j < |t| && t[i].SawNewest? && t[j].SawNewest? ==> t[i].newest <= t[j].newest
  }

  lemma {:induction false} SawAt(t: Trace) returns (i: nat)
    requires NewestIn(t).Some?
    ensures i < |t| && t[i] == SawNewest(NewestIn(t).value)
  {
    i := |t| - 1;
    if !t[i].SawNewest? { i := SawAt(t[..i]); }
  }

  /** What is older than the newest at some time is so forever after. */
  lemma {:induction false} StaysOlder(t: Trace, k: nat, j: nat, step: int)
    requires MovesForward(t) && k <= j <= |t| && Older(step, NewestIn(t[..k]))
    ensures Older(step, NewestIn(t[..j]))
    decreases j
  {
    if k < j {
      StaysOlder(t, k, j - 1, step);
      assert t[..j][..j - 1] == t[..j - 1];
      if t[j - 1].SawNewest? { var i := SawAt(t[..j - 1]); }
    }
  }

  /**
    * What is pruned is older than the newest complete checkpoint was when last looked up and, as that only
    * moves forward, than it is at any later time; a mirror or final checkpoint past the resume step is
    * settled before.
    */
  ghost predicate PrunedRight(t: Trace, k: nat, plan: Plan)
    requires plan.mirrorEvery > 0 && k < |t| && t[k].Pruned?
  {
    && Older(t[k].step, NewestIn(t[..k]))
    && (MovesForward(t) ==> forall j :: k <= j <= |t| ==> Older(t[k].step, NewestIn(t[..j])))
    && (MustUpload(plan, t[k].step) && t[k].step > plan.resumeStep ==> Final(StateAfter(t[..k], t[k].step)))
  }

  lemma PrunedOnlyWhenSettled(t: Trace, plan: Plan, k: nat)
    requires plan.mirrorEvery > 0 && Safe(t, plan) && k < |t| && t[k].Pruned?
    ensures PrunedRight(t, k, plan)
  {
    SafePrefix(t, plan, k);
    if MovesForward(t) {
      forall j | k <= j <= |t| ensures Older(t[k].step, NewestIn(t[..j])) { StaysOlder(t, k, j, t[k].step); }
    }
  }

  /** What is promised of each event of an uploader's history. */
  ghost predicate UploadRight(t: Trace, k: nat, plan: Plan)
    requires plan.mirrorEvery > 0 && k < |t|
  {
    && (t[k].Pruned? ==> PrunedRight(t, k, plan))
    && (t[k].Post? && t[k].action.CkptDone? ==> StoredBefore(t, k, t[k].action.step))
    && (t[k].Moved? ==> NoLaterThan(StateAfter(t[..k], t[k].step), t[k].to))
  }

  ghost predicate UploadsRight(t: Trace, plan: Plan)
    requires plan.mirrorEvery > 0
  {
    forall k :: 0 <= k < |t| ==> UploadRight(t, k, plan)
  }

  lemma SafeUploads(t: Trace, plan: Plan)
    requires plan.mirrorEvery > 0 && Safe(t, plan)
    ensures UploadsRight(t, plan)
  {
    forall k | 0 <= k < |t| ensures UploadRight(t, k, plan) {
      if t[k].Pruned? { PrunedOnlyWhenSettled(t, plan, k); }
      if t[k].Post? && t[k].action.CkptDone? { DoneMeansStored(t, plan, k); }
      if t[k].Moved? {
        StatesMoveForward(t, plan, k, k + 1, t[k].step);
        assert t[..k + 1][..k] == t[..k];
      }
    }
  }

  // ---- the fence -----------------------------------------------------------------------------------------

  /** The request at `k` was looked for at `i`, and the fence was set in between, before the request began. */
  predicate Raced(t: Trace, i: nat, k: nat) {
    i + 1 < k < |t| && t[i] == Looked && IsRequest(t[k]) && forall j :: i < j < k ==> t[j] == Fenced
  }

  /** Where the look behind a request is. */
  lemma {:induction false} LookOf(t: Trace, plan: Plan) returns (i: nat)
    requires plan.mirrorEvery > 0 && Safe(t, plan) && ClearLook(t)
    ensures i < |t| && t[i] == Looked && Fenced !in t[..i] && forall j :: i < j < |t| ==> t[j] == Fenced
  {
    var n := |t| - 1;
    if t[n] == Looked { return n; }
    i := LookOf(t[..n], plan);
    assert t[..n][..i] == t[..i];
  }

  /** A request is late exactly when the fence was set between the look that found it clear and the request. */
  lemma LateIff(t: Trace, plan: Plan, k: nat)
    requires plan.mirrorEvery > 0 && Safe(t, plan) && k < |t| && IsRequest(t[k])
    ensures Fenced in t[..k] <==> exists i: nat :: Raced(t, i, k)
  {
    SafePrefix(t, plan, k);
    var i := LookOf(t[..k], plan);
    assert t[..k][..i] == t[..i];
    if i + 1 < k {
      assert Raced(t, i, k) && t[..k][i + 1] == Fenced;
    } else {
      assert t[..k] == t[..i] + [Looked] && t[k - 1] == Looked;
    }
  }

  /** A thread begins at most one request once the fence is set. */
  lemma {:induction false} AtMostOneLate(t: Trace, plan: Plan)
    requires plan.mirrorEvery > 0 && Safe(t, plan)
    ensures Late(t) <= 1
    ensures Late(t) == 1 ==> Fenced in t && !ClearLook(t)
  {
    if t != [] {
      AtMostOneLate(t[..|t| - 1], plan);
      assert forall e :: e in t[..|t| - 1] ==> e in t;
    }
  }

  lemma {:induction false} LateMeans(t: Trace)
    ensures Late(t) > 0 <==> exists k: nat :: LateAt(t, k)
  {
    if t != [] {
      var n := |t| - 1;
      LateMeans(t[..n]);
      if Late(t[..n]) > 0 {
        var k: nat :| LateAt(t[..n], k);
        assert t[..n][..k] == t[..k];
        assert LateAt(t, k);
      }
      if exists k: nat :: LateAt(t, k) {
        var k: nat :| LateAt(t, k);
        if k < n {
          assert t[..n][..k] == t[..k];
          assert LateAt(t[..n], k);
        }
      }
      if IsRequest(t[n]) && Fenced in t[..n] { assert LateAt(t, n); }
    }
  }

  predicate LateAt(t: Trace, k: nat) { k < |t| && IsRequest(t[k]) && Fenced in t[..k] }

  /** Another thread set the fence after this one had looked and before it began its request. */
  ghost predicate RacedOnce(t: Trace) { exists i: nat, k: nat :: Raced(t, i, k) }

  /** A thread begins a request once fenced exactly when it lost such a race, and then just that one. */
  lemma LateOnlyByRace(t: Trace, plan: Plan)
    requires plan.mirrorEvery > 0 && Safe(t, plan)
    ensures Late(t) == if RacedOnce(t) then 1 else 0
  {
    AtMostOneLate(t, plan);
    LateMeans(t);
    if Late(t) > 0 {
      var k: nat :| LateAt(t, k);
      LateIff(t, plan, k);
      var i: nat :| Raced(t, i, k);
    }
    if RacedOnce(t) {
      var i: nat, k: nat :| Raced(t, i, k);
      LateIff(t, plan, k);
      assert LateAt(t, k);
    }
  }

  /** The race can be lost. */
  lemma LateHappens(plan: Plan)
    requires plan.mirrorEvery > 0
    ensures Safe([Looked, Fenced, Post(Finish)], plan) && Late([Looked, Fenced, Post(Finish)]) == 1
  {
    assert [Looked] + [Fenced] == [Looked, Fenced];
    assert [Looked, Fenced] + [Post(Finish)] == [Looked, Fenced, Post(Finish)];
    SafeOne(Looked, plan);
    SafeNext([Looked], Fenced, plan);
    assert [Looked, Fenced][..1] == [Looked];
    SafeNext([Looked, Fenced], Post(Finish), plan);
    LateOnlyByRace([Looked, Fenced, Post(Finish)], plan);
    assert Raced([Looked, Fenced, Post(Finish)], 0, 2);
  }

  // ---- start, LeRobot, finish --------------------------------------------------------------------------

  lemma {:induction false} AtMostFiveStarts(t: Trace, plan: Plan)
    requires plan.mirrorEvery > 0 && Safe(t, plan)
    ensures Tally(t, AStart) <= START_LOOP_MAX
  {
    if t != [] { AtMostFiveStarts(t[..|t| - 1], plan); }
  }

  /** LeRobot was spawned after an accepted start and a successful first running write. */
  ghost predicate SpawnsRight(t: Trace) {
    forall k :: 0 <= k < |t| && t[k] == Spawned ==> StartAccepted in t[..k] && RunningWrite(true) in t[..k]
  }

  lemma {:induction false} TallyZero(t: Trace, kind: Kind)
    requires forall k :: 0 <= k < |t| ==> !Of(t[k], kind)
    ensures Tally(t, kind) == 0
  {
    if t != [] { TallyZero(t[..|t| - 1], kind); }
  }

  /** LeRobot is spawned at most once, after an accepted start and a successful first running write. */
  lemma {:induction false} SpawnedOnce(t: Trace, plan: Plan)
    requires plan.mirrorEvery > 0 && Safe(t, plan)
    ensures Tally(t, ASpawn) <= 1 && SpawnsRight(t)
  {
    if t != [] {
      var n := |t| - 1;
      SpawnedOnce(t[..n], plan);
      if t[n] == Spawned { TallyZero(t[..n], ASpawn); }
      forall k | 0 <= k < |t| && t[k] == Spawned ensures StartAccepted in t[..k] && RunningWrite(true) in t[..k] {
        if k < n { assert t[..n][..k] == t[..k]; }
      }
    }
  }

  lemma {:induction false} FinishedOnce(t: Trace, plan: Plan)
    requires plan.mirrorEvery > 0 && Safe(t, plan)
    ensures Tally(t, AFinish) == if Finishing in t then 1 else 0
  {
    if t != [] {
      var n := |t| - 1;
      FinishedOnce(t[..n], plan);
      assert t == t[..n] + [t[n]];
    }
  }

  // ---- histories that only grow by waiting and asking ----------------------------------------------------

  /** What a worker-API call adds. */
  predicate IsCall(e: Event, action: Action) {
    e == Looked || e == Fenced || e.Slept? || e == Post(action) || (e.Answered? && e.action == action)
  }

  /** `t` with calls of one action added. */
  ghost predicate Called(s: Trace, t: Trace, action: Action) {
    s <= t && forall k :: |s| <= k < |t| ==> IsCall(t[k], action)
  }

  lemma CalledNext(s: Trace, t: Trace, e: Event, action: Action)
    requires Called(s, t, action) && IsCall(e, action)
    ensures Called(s, t + [e], action)
  {
  }

  /** Calls change no checkpoint's state and forget nothing. */
  lemma {:induction false} CalledKeeps(s: Trace, t: Trace, action: Action, step: int)
    requires Called(s, t, action)
    ensures StateAfter(t, step) == StateAfter(s, step) && NewestIn(t) == NewestIn(s)
    ensures forall e :: e in s ==> e in t
    ensures forall e :: e in t ==> e in s || IsCall(e, action)
    decreases |t|
  {
    if |t| > |s| {
      CalledKeeps(s, t[..|t| - 1], action, step);
    } else {
      assert s == t;
    }
  }

  /** What may be posted once, may be posted again. */
  lemma CalledMayPost(s: Trace, t: Trace, action: Action)
    requires Called(s, t, action) && MayPost(s, action)
    ensures MayPost(t, action)
  {
    CalledKeeps(s, t, action, if action.CkptUrl? || action.CkptDone? then action.step else 0);
  }

  /** What storing files adds. */
  predicate IsStoring(e: Event) { e == Looked || e == Fenced || e.Slept? || e.PutFile? }

  ghost predicate OnlyStoring(s: Trace, t: Trace) { s <= t && forall k :: |s| <= k < |t| ==> IsStoring(t[k]) }

  lemma {:induction false} StoringKeeps(s: Trace, t: Trace, step: int)
    requires OnlyStoring(s, t)
    ensures StateAfter(t, step) == StateAfter(s, step) && Tally(t, APost) == Tally(s, APost)
    ensures forall e :: e in s ==> e in t
    decreases |t|
  {
    if |t| > |s| { StoringKeeps(s, t[..|t| - 1], step); } else { assert s == t; }
  }

  lemma TallyNext(t: Trace, e: Event, kind: Kind)
    ensures Tally(t + [e], kind) == Tally(t, kind) + if Of(e, kind) then 1 else 0
  {
    assert (t + [e])[..|t|] == t;
  }

  lemma {:induction false} TallyKept(s: Trace, t: Trace, kind: Kind)
    requires s <= t && forall k :: |s| <= k < |t| ==> !Of(t[k], kind)
    ensures Tally(t, kind) == Tally(s, kind)
    decreases |t|
  {
    if |t| > |s| { TallyKept(s, t[..|t| - 1], kind); } else { assert s == t; }
  }

  /** A wait lies between two times, the later of which may be missing. */
  predicate InTime(e: Event, begin: real, until: Option<real>)
    requires e.Slept?
  {
    begin <= e.begin && (until.Some? ==> e.begin + e.seconds <= until.value)
  }

  /** Every wait recorded since `s` is in time. */
  ghost predicate WaitsWithin(s: Trace, t: Trace, begin: real, until: Option<real>) {
    s <= t && forall k :: |s| <= k < |t| && t[k].Slept? ==> InTime(t[k], begin, until)
  }

  lemma WaitsNext(s: Trace, t: Trace, e: Event, begin: real, until: Option<real>)
    requires WaitsWithin(s, t, begin, until) && (e.Slept? ==> InTime(e, begin, until))
    ensures WaitsWithin(s, t + [e], begin, until)
  {
  }

  lemma WaitsFrom(s: Trace, e: Event, t: Trace, begin: real, until: Option<real>)
    requires WaitsWithin(s + [e], t, begin, until) && !e.Slept?
    ensures WaitsWithin(s, t, begin, until)
  {
  }

  lemma WaitsTransitive(s: Trace, t: Trace, u: Trace, begin: real, later: real, until: Option<real>)
    requires WaitsWithin(s, t, begin, until) && WaitsWithin(t, u, later, until) && begin <= later
    ensures WaitsWithin(s, u, begin, until)
  {
    assert forall k :: |s| <= k < |t| ==> u[k] == t[k];
  }

  // ---- stages of a run -----------------------------------------------------------------------------------

  /** The events that mark the stages of a run. */
  predicate IsStage(e: Event) {
    e.LoopBegun? || e.LoopEnded? || e.Starting? || e.Spawned? || e.Finishing? || e.Moved? || e.Pruned?
  }

  /** `t` with events added that mark no stage. */
  ghost predicate SameStage(s: Trace, t: Trace) { s <= t && forall k :: |s| <= k < |t| ==> !IsStage(t[k]) }

  lemma SameStageNext(s: Trace, t: Trace, e: Event)
    requires SameStage(s, t) && !IsStage(e)
    ensures SameStage(s, t + [e])
  {
  }

  lemma SameStageTransitive(s: Trace, t: Trace, u: Trace)
    requires SameStage(s, t) && SameStage(t, u)
    ensures SameStage(s, u)
  {
    assert forall k :: |s| <= k < |t| ==> u[k] == t[k];
  }

  lemma CalledSameStage(s: Trace, t: Trace, action: Action)
    requires Called(s, t, action)
    ensures SameStage(s, t)
  {
  }

  /** LeRobot does not come to life while no stage is marked. */
  lemma {:induction false} AliveKept(s: Trace, t: Trace)
    requires s <= t && forall k :: |s| <= k < |t| ==> t[k] != Spawned
    ensures Alive(t) ==> Alive(s)
    decreases |t|
  {
    if |t| > |s| { AliveKept(s, t[..|t| - 1]); } else { assert s == t; }
  }

  /** Every wait inside a retry loop ends by its give-up time. */
  ghost predicate RetriesRight(t: Trace) {
    forall i, k :: 0 <= i < k < |t| && t[i].LoopBegun? && t[k].Slept? && LoopEnded !in t[i..k] ==>
      InTime(t[k], t[i].at, Some(t[i].at + START_RETRY_GIVEUP_S))
  }

  /** No retry loop is under way. */
  ghost predicate LoopsOver(t: Trace) { forall i :: 0 <= i < |t| && t[i].LoopBegun? ==> LoopEnded in t[i..] }

  /** `t` with one whole retry loop added, begun at `begin`. */
  ghost predicate Retried(s: Trace, t: Trace, begin: real) {
    && |s| + 2 <= |t| && s <= t && t[|s|] == LoopBegun(begin) && t[|t| - 1] == LoopEnded
    && (forall k :: |s| < k < |t| - 1 ==> !IsStage(t[k]))
    && WaitsWithin(s, t, begin, Some(begin + START_RETRY_GIVEUP_S))
  }

  lemma RetriedWhole(s: Trace, t: Trace, begin: real)
    requires SameStage(s + [LoopBegun(begin)], t)
    requires WaitsWithin(s + [LoopBegun(begin)], t, begin, Some(begin + START_RETRY_GIVEUP_S))
    ensures Retried(s, t + [LoopEnded], begin)
  {
  }

  /** A retry loop marks no other stage. */
  lemma RetriedMarks(s: Trace, t: Trace, begin: real)
    requires Retried(s, t, begin)
    ensures forall k :: |s| <= k < |t| ==> !t[k].Starting? && !t[k].Spawned? && !t[k].Finishing?
  {
  }

  lemma NotAdded(s: Trace, t: Trace, e: Event)
    requires s <= t && forall k :: |s| <= k < |t| ==> t[k] != e
    ensures e in t <==> e in s
  {
  }

  /** The same piece of both. */
  lemma SamePiece(s: Trace, t: Trace, i: nat, k: nat)
    requires s <= t && i <= k <= |s|
    ensures s[i..k] == t[i..k]
  {
  }

  lemma EndedStays(s: Trace, t: Trace, i: nat, k: nat)
    requires s <= t && i <= |s| <= k <= |t| && LoopEnded in s[i..]
    ensures LoopEnded in t[i..k]
  {
    var j :| i <= j < |s| && s[j] == LoopEnded;
    assert t[i..k][j - i] == LoopEnded;
  }

  /** Retry loops that are over stay as they are, whatever comes. */
  lemma RetriesAfter(s: Trace, t: Trace, i: nat, k: nat)
    requires RetriesRight(s) && LoopsOver(s) && s <= t && i < |s| && i < k < |t|
    requires t[i].LoopBegun? && t[k].Slept? && LoopEnded !in t[i..k]
    ensures InTime(t[k], t[i].at, Some(t[i].at + START_RETRY_GIVEUP_S))
  {
    if k < |s| { SamePiece(s, t, i, k); } else { EndedStays(s, t, i, k); }
  }

  lemma RetriesKept(s: Trace, t: Trace)
    requires SameStage(s, t) && RetriesRight(s) && LoopsOver(s)
    ensures RetriesRight(t) && LoopsOver(t)
  {
    forall i, k | 0 <= i < k < |t| && t[i].LoopBegun? && t[k].Slept? && LoopEnded !in t[i..k]
      ensures InTime(t[k], t[i].at, Some(t[i].at + START_RETRY_GIVEUP_S)) {
      RetriesAfter(s, t, i, k);
    }
    forall i | 0 <= i < |t| && t[i].LoopBegun? ensures LoopEnded in t[i..] { EndedStays(s, t, i, |t|); }
  }

  lemma RetriedRight(s: Trace, t: Trace, begin: real)
    requires Retried(s, t, begin) && RetriesRight(s) && LoopsOver(s)
    ensures RetriesRight(t) && LoopsOver(t)
  {
    forall i, k | 0 <= i < k < |t| && t[i].LoopBegun? && t[k].Slept? && LoopEnded !in t[i..k]
      ensures InTime(t[k], t[i].at, Some(t[i].at + START_RETRY_GIVEUP_S)) {
      if i < |s| { RetriesAfter(s, t, i, k); }
    }
    forall i | 0 <= i < |t| && t[i].LoopBegun? ensures LoopEnded in t[i..] {
      assert t[i..][|t| - 1 - i] == LoopEnded;
    }
  }

  /** A mark other than a loop's leaves the loops as they are. */
  lemma RetriesNext(t: Trace, e: Event)
    requires RetriesRight(t) && LoopsOver(t) && !e.LoopBegun?
    ensures RetriesRight(t + [e]) && LoopsOver(t + [e])
  {
    var u := t + [e];
    forall i, k | 0 <= i < k < |u| && u[i].LoopBegun? && u[k].Slept? && LoopEnded !in u[i..k]
      ensures InTime(u[k], u[i].at, Some(u[i].at + START_RETRY_GIVEUP_S)) {
      RetriesAfter(t, u, i, k);
    }
    forall i | 0 <= i < |u| && u[i].LoopBegun? ensures LoopEnded in u[i..] { EndedStays(t, u, i, |u|); }
  }

  // ---- a thread's own book-keeping --------------------------------------------------------------------------

  function StateIn(states: map<int, CkState>, step: int): CkState {
    if step in states then states[step] else Untouched
  }

  /** The states, the manifests and the newest checkpoint a thread keeps are those of its history. */
  ghost predicate Coupled(t: Trace, states: map<int, CkState>, manifests: map<int, Manifest>, newest: Option<int>) {
    && newest == NewestIn(t)
    && (forall step :: StateIn(states, step) == StateAfter(t, step))
    && (forall step, m :: Post(CkptUrl(step, m)) in t ==> step in manifests && manifests[step] == m)
  }

  lemma CoupledCalled(s: Trace, t: Trace, action: Action, states: map<int, CkState>, manifests: map<int, Manifest>,
                      newest: Option<int>)
    requires Coupled(s, states, manifests, newest) && Called(s, t, action)
    requires action.CkptUrl? ==> action.step in manifests && manifests[action.step] == action.manifest
    ensures Coupled(t, states, manifests, newest)
  {
    forall step ensures StateIn(states, step) == StateAfter(t, step) { CalledKeeps(s, t, action, step); }
    CalledKeeps(s, t, action, 0);
  }

  /** One more event that is no move, no look at the newest checkpoint, and sends no manifest. */
  lemma CoupledNext(t: Trace, e: Event, states: map<int, CkState>, manifests: map<int, Manifest>,
                      newest: Option<int>)
    requires Coupled(t, states, manifests, newest) && !e.Moved? && !e.SawNewest? && !(e.Post? && e.action.CkptUrl?)
    ensures Coupled(t + [e], states, manifests, newest)
  {
    assert (t + [e])[..|t|] == t;
  }

  lemma CoupledMoved(t: Trace, step: int, to: CkState, states: map<int, CkState>, manifests: map<int, Manifest>,
                      newest: Option<int>)
    requires Coupled(t, states, manifests, newest)
    ensures Coupled(t + [Moved(step, to)], states[step := to], manifests, newest)
  {
    var u, states' := t + [Moved(step, to)], states[step := to];
    assert u[..|t|] == t;
    forall s ensures StateIn(states', s) == StateAfter(u, s) {
      assert StateIn(states, s) == StateAfter(t, s);
    }
  }

  lemma CoupledManifest(t: Trace, step: int, m: Manifest, states: map<int, CkState>, manifests: map<int, Manifest>,
                      newest: Option<int>)
    requires Coupled(t, states, manifests, newest) && step !in manifests
    ensures Coupled(t, states, manifests[step := m], newest)
  {
  }

  lemma CoupledSaw(t: Trace, n: int, states: map<int, CkState>, manifests: map<int, Manifest>, newest: Option<int>)
    requires Coupled(t, states, manifests, newest)
    ensures Coupled(t + [SawNewest(n)], states, manifests, Some(n))
  {
    assert (t + [SawNewest(n)])[..|t|] == t;
  }
}

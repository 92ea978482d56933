/**
  * The Pi agent's self-update: a new tree is copied beside the live one and swapped in by renames, while
  * power may be lost at any moment.
  */
module SelfUpdate {

  import opened Common

  /** A file: its size and modification time as one stamp, and what it holds. */
  datatype File = File(stamp: int, bytes: int)

  /** The files of a directory. */
  type Tree = map<string, File>

  /** How far an apply has come; `left` is what clearing `pi_agent.new` left behind. */
  datatype Phase =
    | Idle
    | ClearingNew(v: int)
    | Copying(v: int, left: Tree, copied: set<string>)
    | Checking(v: int)
    | ClearingOld(v: int)
    | MovingAside(v: int)
    | MovingIn(v: int)
    | MovingBack
    | Discarding
    | Down

  /**
    * The three sibling directories: `pi_agent`, `pi_agent.new` and `pi_agent.old`. `former` is what was
    * live when the apply began, and `applied` tells whether the last apply said it succeeded.
    */
  datatype Site = Site(live: Option<Tree>, staged: Option<Tree>, aside: Option<Tree>, phase: Phase,
                       former: Option<Tree>, applied: bool)

  datatype Act =
    | Begin(v: int)
    | DeleteNew(file: string)
    | NewCleared
    | NewLeft
    | CopyFile(file: string)
    | CopyFailed
    | CopyDone
    | CheckFails
    | CheckPasses
    | Abandoned
    | DeleteOld(file: string)
    | OldCleared
    | OldLeft
    | AsideSkipped
    | AsideDone
    | AsideFails
    | InDone
    | InFails
    | BackNotNeeded
    | BackDone
    | BackFails
    | Discarded
    | PowerLoss
    | Boot

  /** What a release of each version consists of. */
  type Releases = int -> Tree

  /** A rename onto a directory works when that directory is missing or empty. */
  predicate Vacant(d: Option<Tree>) { d.None? || d.value == map[] }

  /** What stands in `pi_agent.new`. */
  function Leftover(s: Site): Tree { if s.staged.None? then map[] else s.staged.value }

  /** A copy passes over a file that is there already with the same size and modification time. */
  predicate PassedOver(dir: Tree, file: string, source: File) { file in dir && dir[file].stamp == source.stamp }

  predicate Enabled(s: Site, a: Act, r: Releases) {
    match a
    case Begin(_) => s.phase.Idle?
    case DeleteNew(file) => (s.phase.ClearingNew? || s.phase.Discarding?) && s.staged.Some? && file in s.staged.value
    case NewCleared => s.phase.ClearingNew?
    case NewLeft => s.phase.ClearingNew?
    case CopyFile(file) => s.phase.Copying? && file in r(s.phase.v) && file !in s.phase.copied
    case CopyFailed => s.phase.Copying?
    case CopyDone => s.phase.Copying? && s.phase.copied == r(s.phase.v).Keys
    case CheckFails => s.phase.Checking?
    case CheckPasses => s.phase.Checking?
    case Abandoned => s.phase.ClearingNew? || s.phase.Copying? || s.phase.Checking? || s.phase.ClearingOld?
    case DeleteOld(file) => s.phase.ClearingOld? && s.aside.Some? && file in s.aside.value
    case OldCleared => s.phase.ClearingOld?
    case OldLeft => s.phase.ClearingOld?
    case AsideSkipped => s.phase.MovingAside? && s.live.None?
    case AsideDone => s.phase.MovingAside? && s.live.Some? && Vacant(s.aside)
    case AsideFails => s.phase.MovingAside? && s.live.Some?
    case InDone => s.phase.MovingIn? && s.staged.Some? && Vacant(s.live)
    case InFails => s.phase.MovingIn?
    case BackNotNeeded => s.phase.MovingBack? && !(s.live.None? && s.aside.Some?)
    case BackDone => s.phase.MovingBack? && s.live.None? && s.aside.Some?
    case BackFails => s.phase.MovingBack? && s.live.None? && s.aside.Some?
    case Discarded => s.phase.Discarding?
    case PowerLoss => true
    case Boot => s.phase.Down?
  }

  function Without(d: Option<Tree>, file: string): Option<Tree>
    requires d.Some?
  {
    Some(d.value - {file})
  }

  function Do(s: Site, a: Act, r: Releases): Site
    requires Enabled(s, a, r)
  {
    match a
    case Begin(v) => s.(phase := ClearingNew(v), former := s.live, applied := false)
    case DeleteNew(file) => s.(staged := Without(s.staged, file))
    case NewCleared => s.(staged := Some(map[]), phase := Copying(s.phase.v, map[], {}))
    case NewLeft => s.(staged := Some(Leftover(s)), phase := Copying(s.phase.v, Leftover(s), {}))
    case CopyFile(file) =>
      s.(staged := if PassedOver(Leftover(s), file, r(s.phase.v)[file]) then Some(Leftover(s))
                   else Some(Leftover(s)[file := r(s.phase.v)[file]]),
         phase := Copying(s.phase.v, s.phase.left, s.phase.copied + {file}))
    case CopyFailed => s.(phase := Discarding)
    case CopyDone => s.(phase := Checking(s.phase.v))
    case CheckFails => s.(phase := Discarding)
    case CheckPasses => s.(phase := ClearingOld(s.phase.v))
    case Abandoned => s.(phase := Idle)
    case DeleteOld(file) => s.(aside := Without(s.aside, file))
    case OldCleared => s.(aside := None, phase := MovingAside(s.phase.v))
    case OldLeft => s.(phase := MovingAside(s.phase.v))
    case AsideSkipped => s.(phase := MovingIn(s.phase.v))
    case AsideDone => s.(live := None, aside := s.live, phase := MovingIn(s.phase.v))
    case AsideFails => s.(phase := MovingBack)
    case InDone => s.(live := s.staged, staged := None, phase := Idle, applied := true)
    case InFails => s.(phase := MovingBack)
    case BackNotNeeded => s.(phase := Discarding)
    case BackDone => s.(live := s.aside, aside := None, phase := Discarding)
    case BackFails => s.(phase := Discarding)
    case Discarded => s.(phase := Idle)
    case PowerLoss => s.(phase := Down)
    case Boot =>
      if s.live.None? && s.aside.Some? then s.(live := s.aside, aside := None, phase := Idle, applied := false)
      else s.(phase := Idle, applied := false)
  }

  // ---- runs --------------------------------------------------------------------------------------------

  /**
    * A copy of the release over what is left turns out right: every file left is one of the release's, and
    * when it has the same size and modification time it holds the same.
    */
  predicate CleanFor(left: Tree, release: Tree) {
    forall f :: f in left ==> f in release && (left[f].stamp == release[f].stamp ==> left[f] == release[f])
  }

  /**
    * An apply begins only while `pi_agent` is there, and only with nothing in the way of the copy is it
    * continued after `pi_agent.new` was not wholly cleared. Both can be looked up before the step.
    */
  predicate Sound(s: Site, a: Act, r: Releases)
    requires Enabled(s, a, r)
  {
    (a.Begin? ==> s.live.Some?) && (a.NewLeft? ==> CleanFor(Leftover(s), r(s.phase.v)))
  }

  ghost predicate Run(s: Site, acts: seq<Act>, t: Site, r: Releases)
    decreases |acts|
  {
    if acts == [] then t == s
    else Enabled(s, acts[0], r) && Sound(s, acts[0], r) && Run(Do(s, acts[0], r), acts[1..], t, r)
  }

  // ---- what every state keeps --------------------------------------------------------------------------

  ghost predicate IsRelease(t: Tree, r: Releases) { exists v :: t == r(v) }

  /** The live tree is missing or one complete release; when it is missing, the old one is complete. */
  ghost predicate Safe(s: Site, r: Releases) {
    if s.live.Some? then IsRelease(s.live.value, r) else s.aside.Some? && IsRelease(s.aside.value, r)
  }

  /** The release's files among `files`. */
  function Part(t: Tree, files: set<string>): Tree { map f | f in t && f in files :: t[f] }

  /** What a copy of `part` over `left` makes. */
  function Over(left: Tree, part: Tree): Tree {
    map f | f in left.Keys + part.Keys :: if f in part && !PassedOver(left, f, part[f]) then part[f] else left[f]
  }

  /** What the new tree holds, and where the live one is, phase by phase. */
  ghost predicate Fits(s: Site, r: Releases) {
    match s.phase
    case ClearingNew(_) => s.live.Some?
    case Copying(v, left, copied) =>
      s.live.Some? && CleanFor(left, r(v)) && s.staged == Some(Over(left, Part(r(v), copied))) && copied <= r(v).Keys
    case Checking(v) => s.live.Some? && s.staged == Some(r(v))
    case ClearingOld(v) => s.live.Some? && s.staged == Some(r(v))
    case MovingAside(v) => s.live.Some? && s.staged == Some(r(v))
    case MovingIn(v) => s.live.None? && s.staged == Some(r(v))
    case _ => true
  }

  /** Within an apply the former tree is live or set aside whole. */
  ghost predicate KeepsFormer(s: Site) {
    && (s.phase.ClearingNew? || s.phase.Copying? || s.phase.Checking? || s.phase.ClearingOld? || s.phase.MovingAside?
        ==> s.live == s.former)
    && (s.phase.MovingIn? ==> s.aside == s.former)
    && (!s.phase.Idle? && !s.phase.Down? ==> !s.applied)
    && (s.phase.MovingBack? || s.phase.Discarding? ==> if s.live.Some? then s.live == s.former else s.aside == s.former)
  }

  ghost predicate Inv(s: Site, r: Releases) { Safe(s, r) && Fits(s, r) && KeepsFormer(s) }

  lemma StepKeeps(s: Site, a: Act, r: Releases)
    requires Inv(s, r) && Enabled(s, a, r) && Sound(s, a, r)
    ensures Inv(Do(s, a, r), r)
  {
    match a
    case CopyFile(file) =>
      CopyNext(s.phase.left, r(s.phase.v), s.phase.copied, file);
    case NewCleared =>
      OverNothing(map[], r(s.phase.v));
    case NewLeft =>
      OverNothing(Leftover(s), r(s.phase.v));
    case CopyDone =>
      PartAll(r(s.phase.v));
      OverIff(s.phase.left, r(s.phase.v));
    case InDone =>
      assert IsRelease(r(s.phase.v), r);
    case _ =>
  }

  lemma OverNothing(left: Tree, release: Tree)
    ensures Over(left, Part(release, {})) == left
  {
  }

  lemma PartAll(release: Tree)
    ensures Part(release, release.Keys) == release
  {
  }

  /** One more file of the release is copied, or passed over. */
  lemma CopyNext(left: Tree, release: Tree, copied: set<string>, file: string)
    requires file in release && file !in copied
    ensures var was, now := Over(left, Part(release, copied)), Over(left, Part(release, copied + {file}));
      now == if PassedOver(was, file, release[file]) then was else was[file := release[file]]
  {
    var was, now := Over(left, Part(release, copied)), Over(left, Part(release, copied + {file}));
    assert file in was <==> file in left;
    var next := if PassedOver(was, file, release[file]) then was else was[file := release[file]];
    assert now.Keys == next.Keys;
    forall f | f in now ensures now[f] == next[f] {
      assert f != file ==> (f in Part(release, copied + {file}) <==> f in Part(release, copied));
    }
  }

  /** A release copied over a leftover is that release exactly when nothing left is in its way. */
  lemma OverIff(left: Tree, release: Tree)
    ensures Over(left, release) == release <==> CleanFor(left, release)
  {
    if CleanFor(left, release) {
      assert Over(left, release).Keys == release.Keys;
    } else if Over(left, release) == release {
      forall f | f in left ensures f in release && (left[f].stamp == release[f].stamp ==> left[f] == release[f]) {
        assert f in Over(left, release);
        assert PassedOver(left, f, release[f]) ==> Over(left, release)[f] == left[f];
      }
    }
  }

  /** Where an installation starts: one complete release, nothing under way. */
  ghost predicate Installed(s: Site, r: Releases) { s.phase.Idle? && s.live.Some? && IsRelease(s.live.value, r) }

  lemma {:induction false} RunKeeps(s: Site, acts: seq<Act>, t: Site, r: Releases)
    requires Inv(s, r) && Run(s, acts, t, r)
    ensures Inv(t, r)
    decreases |acts|
  {
    if acts != [] {
      StepKeeps(s, acts[0], r);
      RunKeeps(Do(s, acts[0], r), acts[1..], t, r);
    }
  }

  /**
    * Through any updates and power losses the live tree is missing or one complete release, with a complete
    * one beside it when it is missing; so whatever boots is one complete release.
    */
  lemma AlwaysBoots(s: Site, acts: seq<Act>, t: Site, r: Releases)
    requires Installed(s, r) && Run(s, acts, t, r)
    ensures Safe(t, r)
    ensures t.phase.Down? ==> Do(t, Boot, r).live.Some? && IsRelease(Do(t, Boot, r).live.value, r)
  {
    RunKeeps(s, acts, t, r);
  }

  predicate NoBackFails(acts: seq<Act>) { forall i :: 0 <= i < |acts| ==> acts[i] != BackFails }

  /** While no rename back fails, an idle agent always has its live tree: every apply may begin. */
  lemma {:induction false} LiveWhenIdle(s: Site, acts: seq<Act>, t: Site, r: Releases)
    requires Inv(s, r) && Run(s, acts, t, r) && NoBackFails(acts)
    requires s.phase.Idle? || s.phase.Discarding? ==> s.live.Some?
    ensures t.phase.Idle? || t.phase.Discarding? ==> t.live.Some?
    decreases |acts|
  {
    if acts != [] {
      StepKeeps(s, acts[0], r);
      LiveWhenIdle(Do(s, acts[0], r), acts[1..], t, r);
    }
  }

  // ---- one apply from beginning to end -----------------------------------------------------------------

  predicate Uninterrupted(acts: seq<Act>) {
    forall i :: 0 <= i < |acts| ==> acts[i] != PowerLoss && !acts[i].Begin? && acts[i] != Boot
  }

  /** While an apply of `v` runs, its tree is the only one that can be swapped in. */
  ghost predicate Applying(s: Site, v: int, former: Option<Tree>) {
    && s.former == former && (!s.phase.Idle? ==> !s.applied)
    && (s.phase.ClearingNew? || s.phase.Copying? || s.phase.Checking? ==> s.phase.v == v)
    && (s.phase.ClearingOld? || s.phase.MovingAside? || s.phase.MovingIn? ==> s.phase.v == v)
  }

  ghost predicate Ended(s: Site, v: int, former: Option<Tree>, r: Releases) {
    if s.applied then s.live == Some(r(v)) && s.aside == former
    else if s.live.Some? then s.live == former
    else s.aside == former
  }

  lemma {:induction false} ApplyRun(s: Site, acts: seq<Act>, t: Site, r: Releases, v: int, former: Option<Tree>)
    requires Inv(s, r) && Run(s, acts, t, r) && Uninterrupted(acts) && Applying(s, v, former)
    requires s.phase.Idle? ==> Ended(s, v, former, r)
    requires !s.phase.Down? && t.phase.Idle?
    ensures Ended(t, v, former, r)
    decreases |acts|
  {
    if acts != [] {
      StepKeeps(s, acts[0], r);
      ApplyRun(Do(s, acts[0], r), acts[1..], t, r, v, former);
    }
  }

  /**
    * An apply that runs to its end says it succeeded exactly when it installed the new release, the former
    * one kept aside; otherwise the former one is still live, or set aside when the rename back failed.
    */
  lemma AppliedOrUnchanged(s: Site, v: int, acts: seq<Act>, t: Site, r: Releases)
    requires Inv(s, r) && s.phase.Idle? && s.live.Some?
    requires Run(Do(s, Begin(v), r), acts, t, r) && Uninterrupted(acts) && t.phase.Idle?
    ensures if t.applied then t.live == Some(r(v)) && t.aside == s.live
      else if t.live.Some? then t.live == s.live else t.aside == s.live
  {
    StepKeeps(s, Begin(v), r);
    ApplyRun(Do(s, Begin(v), r), acts, t, r, v, s.live);
  }

  // ---- the condition on beginning is exact ---------------------------------------------------------------

  lemma RunTwo(s: Site, a: seq<Act>, t: Site, b: seq<Act>, u: Site, r: Releases)
    requires Run(s, a, t, r) && Run(t, b, u, r)
    ensures Run(s, a + b, u, r)
    decreases |a|
  {
    if a == [] {
      assert a + b == b;
    } else {
      assert (a + b)[1..] == a[1..] + b;
      RunTwo(Do(s, a[0], r), a[1..], t, b, u, r);
    }
  }

  lemma RunOne(s: Site, a: Act, r: Releases)
    requires Enabled(s, a, r) && Sound(s, a, r)
    ensures Run(s, [a], Do(s, a, r), r)
  {
    assert [a][1..] == [];
  }

  lemma RunBefore(s: Site, a: Act, acts: seq<Act>, t: Site, r: Releases)
    requires Enabled(s, a, r) && Sound(s, a, r) && Run(Do(s, a, r), acts, t, r)
    ensures Run(s, [a] + acts, t, r)
  {
    assert ([a] + acts)[1..] == acts;
  }

  lemma NothingMissing<T>(a: set<T>, b: set<T>)
    requires b <= a && a - b == {}
    ensures a == b
  {
    forall x | x in a ensures x in b { assert x !in a - b; }
  }

  /** The state of a copy of which these files are done. */
  function CopiedTo(s: Site, copied: set<string>, r: Releases): Site
    requires s.phase.Copying?
  {
    var v, left := s.phase.v, s.phase.left;
    s.(phase := Copying(v, left, copied), staged := Some(Over(left, Part(r(v), copied))))
  }

  lemma CopyOne(s: Site, copied: set<string>, file: string, r: Releases)
    requires s.phase.Copying? && file in r(s.phase.v) && file !in copied
    ensures Enabled(CopiedTo(s, copied, r), CopyFile(file), r)
    ensures Do(CopiedTo(s, copied, r), CopyFile(file), r) == CopiedTo(s, copied + {file}, r)
  {
    CopyNext(s.phase.left, r(s.phase.v), copied, file);
  }

  /** The copy can always be brought to its end. */
  lemma {:induction false} CopyAll(s: Site, copied: set<string>, r: Releases) returns (acts: seq<Act>)
    requires s.phase.Copying? && copied <= r(s.phase.v).Keys
    ensures Run(CopiedTo(s, copied, r), acts, CopiedTo(s, r(s.phase.v).Keys, r), r) && Uninterrupted(acts)
    decreases |r(s.phase.v).Keys - copied|
  {
    var missing := r(s.phase.v).Keys - copied;
    if missing == {} {
      NothingMissing(r(s.phase.v).Keys, copied);
      return [];
    }
    var file :| file in missing;
    assert r(s.phase.v).Keys - (copied + {file}) == missing - {file};
    acts := CopyAll(s, copied + {file}, r);
    CopyOne(s, copied, file, r);
    RunBefore(CopiedTo(s, copied, r), CopyFile(file), acts, CopiedTo(s, r(s.phase.v).Keys, r), r);
    acts := [CopyFile(file)] + acts;
  }

  /** A finished copy can pass the check, and `pi_agent.old` be cleared. */
  lemma PassChecks(s: Site, r: Releases) returns (acts: seq<Act>)
    requires s.phase.Copying? && s.phase.copied == r(s.phase.v).Keys
    ensures Run(s, acts, s.(phase := MovingAside(s.phase.v), aside := None), r) && Uninterrupted(acts)
  {
    var s1 := Do(s, CopyDone, r);
    var s2 := Do(s1, CheckPasses, r);
    RunOne(s2, OldCleared, r);
    RunBefore(s1, CheckPasses, [OldCleared], Do(s2, OldCleared, r), r);
    acts := [CheckPasses] + [OldCleared];
    RunBefore(s, CopyDone, acts, Do(s2, OldCleared, r), r);
    acts := [CopyDone] + acts;
  }

  /** From the copy on, an apply can get as far as having cleared `pi_agent.old`. */
  lemma ToOldCleared(s: Site, r: Releases) returns (acts: seq<Act>, t: Site)
    requires s.phase.Copying? && s.phase.copied == {} && s.staged == Some(s.phase.left)
    ensures Run(s, acts, t, r) && Uninterrupted(acts)
    ensures t == s.(phase := MovingAside(s.phase.v), staged := Some(Over(s.phase.left, r(s.phase.v))), aside := None)
  {
    OverNothing(s.phase.left, r(s.phase.v));
    PartAll(r(s.phase.v));
    var copy := CopyAll(s, {}, r);
    var copied := CopiedTo(s, r(s.phase.v).Keys, r);
    var rest := PassChecks(copied, r);
    t := copied.(phase := MovingAside(s.phase.v), aside := None);
    RunTwo(s, copy, copied, rest, t, r);
    acts := copy + rest;
  }

  /** An apply begun while `pi_agent` is missing can lose the only tree there is. */
  lemma BegunWithoutLive(s: Site, v: int, r: Releases) returns (acts: seq<Act>, t: Site)
    requires s.phase.Idle? && s.live.None?
    ensures Run(Do(s, Begin(v), r), acts, t, r) && t.phase.Down? && t.live.None? && t.aside.None?
  {
    var s1 := Do(s, Begin(v), r);
    var s2 := Do(s1, NewCleared, r);
    var copy, s3 := ToOldCleared(s2, r);
    t := Do(s3, PowerLoss, r);
    RunOne(s3, PowerLoss, r);
    RunTwo(s2, copy, s3, [PowerLoss], t, r);
    acts := copy + [PowerLoss];
    RunBefore(s1, NewCleared, acts, t, r);
    acts := [NewCleared] + acts;
  }

  /** An apply that went on with something left in `pi_agent.new` can install what the copy made of it. */
  lemma InstalledOver(s: Site, r: Releases) returns (acts: seq<Act>, t: Site)
    requires s.phase.Copying? && s.phase.copied == {} && s.staged == Some(s.phase.left) && s.live.Some?
    ensures Run(s, acts, t, r) && Uninterrupted(acts)
    ensures t.phase.Idle? && t.applied && t.live == Some(Over(s.phase.left, r(s.phase.v)))
  {
    var copy, s1 := ToOldCleared(s, r);
    var s2 := Do(s1, AsideDone, r);
    t := Do(s2, InDone, r);
    RunOne(s2, InDone, r);
    RunBefore(s1, AsideDone, [InDone], t, r);
    var rest := [AsideDone] + [InDone];
    RunTwo(s, copy, s1, rest, t, r);
    acts := copy + rest;
  }

  ghost predicate AlwaysSafeFrom(s: Site, r: Releases) {
    forall acts, t :: Run(s, acts, t, r) ==> Safe(t, r)
  }

  /** An apply is safe to begin exactly while `pi_agent` is there. */
  lemma BeginSafeIff(s: Site, v: int, r: Releases)
    requires Inv(s, r) && s.phase.Idle?
    ensures AlwaysSafeFrom(Do(s, Begin(v), r), r) <==> s.live.Some?
  {
    if s.live.Some? {
      StepKeeps(s, Begin(v), r);
      forall acts, t | Run(Do(s, Begin(v), r), acts, t, r) ensures Safe(t, r) {
        RunKeeps(Do(s, Begin(v), r), acts, t, r);
      }
    } else {
      var acts, t := BegunWithoutLive(s, v, r);
      assert Run(Do(s, Begin(v), r), acts, t, r) && !Safe(t, r);
    }
  }

  /** An apply of `v` that ends by saying it succeeded has installed `v`. */
  ghost predicate AlwaysInstalls(s: Site, v: int, r: Releases) {
    forall acts, t :: Run(s, acts, t, r) && Uninterrupted(acts) && t.phase.Idle? && t.applied ==> t.live == Some(r(v))
  }

  /**
    * Going on after an incomplete clearing of `pi_agent.new` is right exactly when nothing left is in the
    * copy's way: not a file the release does not have, and not one of the same size and modification time
    * that holds something else.
    */
  lemma LeftRightIff(s: Site, r: Releases)
    requires Inv(s, r) && s.phase.ClearingNew?
    ensures var next := Do(s, NewLeft, r);
      AlwaysSafeFrom(next, r) && AlwaysInstalls(next, s.phase.v, r) <==> CleanFor(Leftover(s), r(s.phase.v))
  {
    var next, v := Do(s, NewLeft, r), s.phase.v;
    if CleanFor(Leftover(s), r(v)) {
      StepKeeps(s, NewLeft, r);
      forall acts, t | Run(next, acts, t, r) ensures Safe(t, r) { RunKeeps(next, acts, t, r); }
      forall acts, t | Run(next, acts, t, r) && Uninterrupted(acts) && t.phase.Idle? &&
        t.applied ensures t.live == Some(r(v)) {
        ApplyRun(next, acts, t, r, v, s.former);
      }
    } else {
      var acts, t := InstalledOver(next, r);
      OverIff(Leftover(s), r(v));
      assert Run(next, acts, t, r) && t.live != Some(r(v));
    }
  }

  /** Two releases whose `VERSION` files differ only in what they hold. */
  function TwoReleases(v: int): Tree {
    if v == 1 then map["VERSION" := File(1, 1), "agent.py" := File(2, 1)]
    else map["VERSION" := File(1, 2), "agent.py" := File(3, 2)]
  }

  /** A `VERSION` of the first is left where the second is about to be copied. */
  function VersionLeft(): Site {
    Site(Some(TwoReleases(1)), Some(map["VERSION" := File(1, 1)]), None, ClearingNew(2), Some(TwoReleases(1)), false)
  }

  lemma MixedIsNoRelease()
    ensures !IsRelease(Over(Leftover(VersionLeft()), TwoReleases(2)), TwoReleases)
  {
    var mixed := Over(Leftover(VersionLeft()), TwoReleases(2));
    assert mixed["VERSION"] == File(1, 1) && mixed["agent.py"] == File(3, 2);
    forall v ensures mixed != TwoReleases(v) {
      assert TwoReleases(v)["VERSION"] == File(1, if v == 1 then 1 else 2);
      assert TwoReleases(v)["agent.py"] == if v == 1 then File(2, 1) else File(3, 2);
    }
  }

  /** The `VERSION` left is passed over by the copy, and a tree that is no release goes live. */
  lemma MixedTreeGoesLive() returns (acts: seq<Act>, t: Site)
    ensures Inv(VersionLeft(), TwoReleases) && Run(Do(VersionLeft(), NewLeft, TwoReleases), acts, t, TwoReleases)
    ensures t.live.Some? && !IsRelease(t.live.value, TwoReleases)
  {
    assert IsRelease(VersionLeft().live.value, TwoReleases) by { assert VersionLeft().live.value == TwoReleases(1); }
    acts, t := InstalledOver(Do(VersionLeft(), NewLeft, TwoReleases), TwoReleases);
    MixedIsNoRelease();
  }
}

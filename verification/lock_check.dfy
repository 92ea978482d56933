/** The installed packages compared with a training lock. */
module LockChecks {

  import opened Common
  import opened NameOrder
  import opened PackageLines
  import opened TextLines
  import opened TrainingLocks

  /** Every version found for a name, in the order found. */
  type Installed = map<string, seq<string>>

  datatype Problem =
    | Missing(name: string, want: string)
    | Repeated(name: string)
    | WrongVersion(name: string, have: string, want: string)
    | ForbiddenInstalled(name: string)
    | ForbiddenLocked(name: string)
    | NotLocked(name: string, have: string)

  const FORBIDDEN := "torchcodec"
  const STRICT_EXTRA_ALLOWED := {"pip", "setuptools", "wheel"}

  // ---- what is installed -------------------------------------------------------------------------------------

  /** A distribution's metadata; some have no name. */
  datatype Distribution = Distribution(name: string, version: string)

  function VersionsOf(dists: seq<Distribution>, n: nat, name: string): seq<string>
    requires n <= |dists|
  {
    if n == 0 then []
    else
      var d := dists[n - 1];
      VersionsOf(dists, n - 1, name) + if d.name != [] && Pep503(d.name) == name then [d.version] else []
  }

  predicate FoundFor(dists: seq<Distribution>, n: nat, found: Installed, name: string)
    requires n <= |dists|
  {
    var versions := VersionsOf(dists, n, name);
    if name in found then versions != [] && found[name] == versions else versions == []
  }

  ghost predicate Found(dists: seq<Distribution>, n: nat, found: Installed)
    requires n <= |dists|
  {
    forall name :: FoundFor(dists, n, found, name)
  }

  function With(found: Installed, name: string, version: string): Installed {
    found[name := (if name in found then found[name] else []) + [version]]
  }

  lemma FoundNext(dists: seq<Distribution>, n: nat, found: Installed, found': Installed, name: string)
    requires n < |dists| && FoundFor(dists, n, found, name)
    requires found' == if dists[n].name != [] then With(found, Pep503(dists[n].name), dists[n].version) else found
    ensures FoundFor(dists, n + 1, found', name)
  {
  }

  method InstalledDistributions(dists: seq<Distribution>) returns (found: Installed)
    ensures Found(dists, |dists|, found)
  {
    found := map[];
    for i := 0 to |dists|
      invariant Found(dists, i, found)
    {
      ghost var was, next := found, i + 1;
      if dists[i].name != [] {
        var name := Pep503(dists[i].name);
        found := With(found, name, dists[i].version);
      }
      forall name ensures FoundFor(dists, next, found, name) { FoundNext(dists, i, was, found, name); }
    }
  }

  // ---- the comparison ------------------------------------------------------------------------------------------

  predicate AllSame(versions: seq<string>) { forall i :: 0 <= i < |versions| ==> versions[i] == versions[0] }

  /** What is wrong with one entry of the lock. */
  function LockProblem(name: string, want: string, installed: Installed): Option<Problem> {
    var have := if name in installed then installed[name] else [];
    if have == [] then Some(Missing(name, want))
    else if !AllSame(have) then Some(Repeated(name))
    else if have[0] != want then Some(WrongVersion(name, have[0], want))
    else None
  }

  predicate IsExtra(name: string, lock: Pins) {
    name !in lock && name !in STRICT_EXTRA_ALLOWED && name != FORBIDDEN
  }

  /** Everything that is a problem, and nothing else. */
  predicate IsProblem(p: Problem, lock: Pins, installed: Installed, strict: bool) {
    || (p.name in lock && LockProblem(p.name, lock[p.name], installed) == Some(p))
    || (p == ForbiddenInstalled(FORBIDDEN) && FORBIDDEN in installed)
    || (p == ForbiddenLocked(FORBIDDEN) && FORBIDDEN in lock)
    || (strict && p.NotLocked? && p.name in installed && IsExtra(p.name, lock) && installed[p.name] != [] &&
      p.have == installed[p.name][0])
  }

  method EntryProblems(lock: Pins, installed: Installed) returns (problems: seq<Problem>)
    ensures forall p :: p in problems <==> p.name in lock && LockProblem(p.name, lock[p.name], installed) == Some(p)
  {
    problems := [];
    var names := Sorted(lock.Keys);
    for i := 0 to |names|
      invariant forall p :: p in problems <==>
        p.name in names[..i] && p.name in lock && LockProblem(p.name, lock[p.name], installed) == Some(p)
    {
      var name := names[i];
      assert name in names;
      assert names[..i + 1] == names[..i] + [name];
      var found := LockProblem(name, lock[name], installed);
      if found.Some? { problems := problems + [found.value]; }
    }
    assert names[..|names|] == names;
  }

  method ExtraProblems(lock: Pins, installed: Installed) returns (problems: seq<Problem>)
    requires forall name :: name in installed ==> installed[name] != []
    ensures forall p :: p in problems <==>
      p.NotLocked? && p.name in installed && IsExtra(p.name, lock) && p.have == installed[p.name][0]
  {
    problems := [];
    var extra := set name | name in installed.Keys && IsExtra(name, lock);
    var names := Sorted(extra);
    for i := 0 to |names|
      invariant forall p :: p in problems <==>
        p.NotLocked? && p.name in names[..i] && p.name in installed && p.have == installed[p.name][0]
    {
      var name := names[i];
      assert name in names && name in extra;
      assert names[..i + 1] == names[..i] + [name];
      problems := problems + [NotLocked(name, installed[name][0])];
    }
    assert names[..|names|] == names;
  }

  method Compare(lock: Pins, installed: Installed, strict: bool) returns (problems: seq<Problem>)
    requires forall name :: name in installed ==> installed[name] != []
    ensures forall p :: p in problems <==> IsProblem(p, lock, installed, strict)
  {
    problems := EntryProblems(lock, installed);
    if FORBIDDEN in installed { problems := problems + [ForbiddenInstalled(FORBIDDEN)]; }
    if FORBIDDEN in lock { problems := problems + [ForbiddenLocked(FORBIDDEN)]; }
    if strict {
      var extra := ExtraProblems(lock, installed);
      problems := problems + extra;
    }
  }

  // ---- what an empty comparison means ----------------------------------------------------------------------------

  predicate OneVersion(versions: seq<string>, version: string) {
    versions != [] && forall i :: 0 <= i < |versions| ==> versions[i] == version
  }

  /**
    * Every entry is installed at its one version and nothing forbidden is there; strictly, nothing else is
    * installed but the tools.
    */
  predicate Matches(lock: Pins, installed: Installed, strict: bool) {
    && (forall name :: name in lock ==> name in installed && OneVersion(installed[name], lock[name]))
    && FORBIDDEN !in installed && FORBIDDEN !in lock
    && (strict ==> forall name :: name in installed ==> name in lock || name in STRICT_EXTRA_ALLOWED)
  }

  lemma EntryFine(name: string, want: string, installed: Installed)
    ensures LockProblem(name, want, installed) == None <==> name in installed && OneVersion(installed[name], want)
  {
    if name in installed && LockProblem(name, want, installed) == None {
      var have := installed[name];
      assert AllSame(have);
      forall i | 0 <= i < |have| ensures have[i] == want { assert have[i] == have[0]; }
    }
  }

  /** There is no problem exactly when the installed packages match the lock. */
  lemma NoProblemIff(lock: Pins, installed: Installed, strict: bool)
    requires forall name :: name in installed ==> installed[name] != []
    ensures (forall p :: !IsProblem(p, lock, installed, strict)) <==> Matches(lock, installed, strict)
  {
    if forall p :: !IsProblem(p, lock, installed, strict) {
      forall name | name in lock ensures name in installed && OneVersion(installed[name], lock[name]) {
        EntryFine(name, lock[name], installed);
        var found := LockProblem(name, lock[name], installed);
        if found.Some? { assert IsProblem(found.value, lock, installed, strict); }
      }
      assert !IsProblem(ForbiddenInstalled(FORBIDDEN), lock, installed, strict);
      assert !IsProblem(ForbiddenLocked(FORBIDDEN), lock, installed, strict);
      if strict {
        forall name | name in installed ensures name in lock || name in STRICT_EXTRA_ALLOWED {
          assert !IsProblem(NotLocked(name, installed[name][0]), lock, installed, strict);
        }
      }
    }
    if Matches(lock, installed, strict) {
      forall p ensures !IsProblem(p, lock, installed, strict) {
        if p.name in lock { EntryFine(p.name, lock[p.name], installed); }
      }
    }
  }

  /**
    * The two programs together: a lock printed from an accepted freeze is read, and the strict comparison
    * with it comes out empty, exactly when the installed packages are those of the freeze.
    */
  method CheckPrinted(text: string, mark: string, today: string, dists: seq<Distribution>) returns (ok: bool)
    requires Freeze(text, mark).Accepted? && Unbroken(today, LineBreaks())
    ensures exists installed ::
      Found(dists, |dists|, installed) && (ok <==> Matches(Freeze(text, mark).pins, installed, true))
  {
    var entries, names := ParseFreeze(text, mark);
    RoundTrip(text, mark, names, today);
    var lock := ReadLock(RenderLock(entries.value, today));
    var installed := InstalledDistributions(dists);
    assert forall name :: name in installed ==> FoundFor(dists, |dists|, installed, name);
    var problems := Compare(lock.pins, installed, true);
    NoProblemIff(lock.pins, installed, true);
    ok := problems == [];
    if ok {
      assert forall p :: p !in problems;
    } else {
      assert problems[0] in problems;
    }
  }
}

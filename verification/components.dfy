/** Connected components of a mesh by shared manifold edges. */
module Components {
  import opened UnionFind
  import opened EdgeRecords

  type Pair = (nat, nat)

  // ---- chains of neighbours --------------------------------------------------------------------------

  ghost predicate Adjacent(pairs: seq<Pair>, i: nat, j: nat) { (i, j) in pairs || (j, i) in pairs }

  /** A chain over faces below `n`, each neighbouring two of them adjacent. */
  ghost predicate Chain(n: nat, pairs: seq<Pair>, path: seq<nat>) {
    && |path| > 0 && (forall k :: 0 <= k < |path| ==> path[k] < n)
    && forall k :: 0 <= k < |path| - 1 ==> Adjacent(pairs, path[k], path[k + 1])
  }

  ghost predicate ChainFrom(n: nat, pairs: seq<Pair>, path: seq<nat>, i: nat, j: nat) {
    Chain(n, pairs, path) && path[0] == i && path[|path| - 1] == j
  }

  ghost predicate Linked(n: nat, pairs: seq<Pair>, i: nat, j: nat) {
    exists path :: ChainFrom(n, pairs, path, i, j)
  }

  lemma LinkedSelf(n: nat, pairs: seq<Pair>, i: nat)
    requires i < n
    ensures Linked(n, pairs, i, i)
  {
    assert ChainFrom(n, pairs, [i], i, i);
  }

  lemma LinkedTrans(n: nat, pairs: seq<Pair>, i: nat, j: nat, k: nat)
    requires Linked(n, pairs, i, j) && Linked(n, pairs, j, k)
    ensures Linked(n, pairs, i, k)
  {
    var s :| ChainFrom(n, pairs, s, i, j);
    var t :| ChainFrom(n, pairs, t, j, k);
    var path := s + t[1..];
    forall m | 0 <= m < |path| - 1 ensures Adjacent(pairs, path[m], path[m + 1]) {
      if m >= |s| - 1 { assert path[m] == t[m - |s| + 1] && path[m + 1] == t[m - |s| + 2]; }
    }
    assert ChainFrom(n, pairs, path, i, k);
  }

  function Reverse(s: seq<nat>): (r: seq<nat>)
    ensures |r| == |s| && forall k :: 0 <= k < |s| ==> r[k] == s[|s| - 1 - k]
  {
    if s == [] then [] else Reverse(s[1..]) + [s[0]]
  }

  lemma LinkedSym(n: nat, pairs: seq<Pair>, i: nat, j: nat)
    requires Linked(n, pairs, i, j)
    ensures Linked(n, pairs, j, i)
  {
    var s :| ChainFrom(n, pairs, s, i, j);
    var path := Reverse(s);
    forall m | 0 <= m < |path| - 1 ensures Adjacent(pairs, path[m], path[m + 1]) {
      assert Adjacent(pairs, s[|s| - 2 - m], s[|s| - 1 - m]);
    }
    assert ChainFrom(n, pairs, path, j, i);
  }

  lemma LinkedMono(n: nat, pairs: seq<Pair>, more: seq<Pair>, i: nat, j: nat)
    requires Linked(n, pairs, i, j) && forall p :: p in pairs ==> p in more
    ensures Linked(n, more, i, j)
  {
    var s :| ChainFrom(n, pairs, s, i, j);
    forall m | 0 <= m < |s| - 1 ensures Adjacent(more, s[m], s[m + 1]) {
      assert Adjacent(pairs, s[m], s[m + 1]);
    }
    assert ChainFrom(n, more, s, i, j);
  }

  /** A tagging that agrees on every pair agrees along every chain. */
  lemma {:induction false} ChainKeepsTag(n: nat, pairs: seq<Pair>, tag: seq<nat>, path: seq<nat>)
    requires |tag| == n && Chain(n, pairs, path)
    requires forall p :: p in pairs ==> p.0 < n && p.1 < n && tag[p.0] == tag[p.1]
    ensures tag[path[0]] == tag[path[|path| - 1]]
  {
    if |path| > 1 {
      var rest := path[1..];
      forall m | 0 <= m < |rest| - 1 ensures Adjacent(pairs, rest[m], rest[m + 1]) {
        assert Adjacent(pairs, path[m + 1], path[m + 2]);
      }
      ChainKeepsTag(n, pairs, tag, rest);
      assert Adjacent(pairs, path[0], path[1]);
    }
  }

  // ---- union over all pairs ----------------------------------------------------------------------------

  /** `tag` gives two faces the same tag exactly when a chain of `pairs` links them. */
  ghost predicate Classifies(pairs: seq<Pair>, tag: seq<nat>) {
    forall i, j :: 0 <= i < |tag| && 0 <= j < |tag| ==>
      (tag[i] == tag[j] <==> Linked(|tag|, pairs, i, j))
  }

  ghost function Roots(p: seq<nat>, depth: seq<nat>): (r: seq<nat>)
    requires Forest(p, depth)
    ensures |r| == |p| && forall i :: 0 <= i < |p| ==> r[i] == Root(p, depth, i)
  {
    seq(|p|, i requires 0 <= i < |p| => Root(p, depth, i))
  }

  lemma NoPairs(n: nat, tag: seq<nat>)
    requires |tag| == n && forall i :: 0 <= i < n ==> tag[i] == i
    ensures Classifies([], tag)
  {
    forall i, j | 0 <= i < n && 0 <= j < n ensures tag[i] == tag[j] <==> Linked(n, [], i, j) {
      LinkedSelf(n, [], i);
      if Linked(n, [], i, j) {
        var path :| ChainFrom(n, [], path, i, j);
        ChainKeepsTag(n, [], tag, path);
      }
    }
  }

  /** Merging the classes of one more pair's two faces classifies by one more pair. */
  lemma MergeClassifies(pairs: seq<Pair>, was: seq<nat>, now: seq<nat>, a: nat, b: nat)
    requires Classifies(pairs, was) && |now| == |was| && a < |was| && b < |was|
    requires forall p :: p in pairs ==> p.0 < |was| && p.1 < |was|
    requires forall i :: 0 <= i < |was| ==> now[i] == if was[i] == was[b] then was[a] else was[i]
    ensures Classifies(pairs + [(a, b)], now)
  {
    var n, more := |was|, pairs + [(a, b)];
    forall p | p in more ensures p.0 < n && p.1 < n && now[p.0] == now[p.1] {
      if p in pairs { PairLinks(n, pairs, p); }
    }
    PairLinks(n, more, (a, b));
    forall i, j | 0 <= i < n && 0 <= j < n ensures now[i] == now[j] <==> Linked(n, more, i, j) {
      if Linked(n, more, i, j) {
        var path :| ChainFrom(n, more, path, i, j);
        ChainKeepsTag(n, more, now, path);
      }
      if now[i] == now[j] {
        if was[i] == was[j] {
          LinkedMono(n, pairs, more, i, j);
        } else if was[i] == was[b] {
          Bridge(was, pairs, a, b, j, i);
        } else {
          Bridge(was, pairs, a, b, i, j);
          LinkedSym(n, more, j, i);
        }
      }
    }
  }

  lemma PairLinks(n: nat, pairs: seq<Pair>, p: Pair)
    requires p in pairs && p.0 < n && p.1 < n
    ensures Linked(n, pairs, p.0, p.1) && Linked(n, pairs, p.1, p.0)
  {
    assert ChainFrom(n, pairs, [p.0, p.1], p.0, p.1);
    LinkedSym(n, pairs, p.0, p.1);
  }

  lemma Bridge(was: seq<nat>, pairs: seq<Pair>, a: nat, b: nat, i: nat, j: nat)
    requires Classifies(pairs, was) && a < |was| && b < |was| && i < |was| && j < |was|
    requires was[i] == was[a] && was[j] == was[b]
    ensures Linked(|was|, pairs + [(a, b)], j, i)
  {
    var n, more := |was|, pairs + [(a, b)];
    assert Linked(n, pairs, j, b) && Linked(n, pairs, a, i);
    LinkedMono(n, pairs, more, j, b);
    LinkedMono(n, pairs, more, a, i);
    PairLinks(n, more, (a, b));
    LinkedTrans(n, more, j, b, a);
    LinkedTrans(n, more, j, a, i);
  }

  ghost predicate StartsOk(recs: seq<Rec>, starts: seq<nat>) {
    forall k :: 0 <= k < |starts| ==> starts[k] + 1 < |recs|
  }

  /** The two faces of each manifold edge, in the order the loop takes them. */
  ghost function PairsAt(recs: seq<Rec>, starts: seq<nat>): (r: seq<Pair>)
    requires StartsOk(recs, starts)
    ensures |r| == |starts| && forall k :: 0 <= k < |r| ==> r[k] == (recs[starts[k]].face, recs[starts[k] + 1].face)
  {
    if starts == [] then [] else
      var k := |starts| - 1;
      PairsAt(recs, starts[..k]) + [(recs[starts[k]].face, recs[starts[k] + 1].face)]
  }

  /** One turn of the loop, seen from the roots: uniting two trees classifies by one more pair. */
  lemma UnitedOnce(pairs: seq<Pair>, was: seq<nat>, now: seq<nat>, a: nat, b: nat)
    requires Classifies(pairs, was) && |now| == |was| && a < |was| && b < |was|
    requires forall k :: 0 <= k < |pairs| ==> pairs[k].0 < |was| && pairs[k].1 < |was|
    requires if was[a] == was[b] then now == was
             else forall i :: 0 <= i < |was| ==> now[i] == if was[i] == was[b] then was[a] else was[i]
    ensures Classifies(pairs + [(a, b)], now)
  {
    MergeClassifies(pairs, was, now, a, b);
  }

  /** One turn of the loop over `start[cnt == 2]`. */
  method UniteOne(parent: array<nat>, ghost depth: seq<nat>, ghost pairs: seq<Pair>, a: nat, b: nat)
    returns (ghost depth': seq<nat>)
    requires Forest(parent[..], depth) && Classifies(pairs, Roots(parent[..], depth))
    requires a < parent.Length && b < parent.Length
    requires forall k :: 0 <= k < |pairs| ==> pairs[k].0 < parent.Length && pairs[k].1 < parent.Length
    modifies parent
    ensures Forest(parent[..], depth') && Classifies(pairs + [(a, b)], Roots(parent[..], depth'))
  {
    ghost var was := Roots(parent[..], depth);
    var ra := Find(parent, depth, a);
    var rb := Find(parent, depth, b);
    assert Roots(parent[..], depth) == was;
    depth' := depth;
    if ra != rb {
      ghost var p := parent[..];
      depth' := UnionMergesRoots(p, depth, ra, rb);
      parent[rb] := ra;
      assert parent[..] == p[rb := ra];
    }
    UnitedOnce(pairs, was, Roots(parent[..], depth'), a, b);
  }

  /** `[find(i) for i in range(nf)]`. */
  method RootList(parent: array<nat>, ghost depth: seq<nat>) returns (roots: seq<nat>)
    requires Forest(parent[..], depth)
    modifies parent
    ensures roots == Roots(old(parent[..]), depth)
  {
    ghost var final := Roots(parent[..], depth);
    roots := [];
    for i := 0 to parent.Length
      invariant Forest(parent[..], depth) && Roots(parent[..], depth) == final
      invariant roots == final[..i]
    {
      var r := Find(parent, depth, i);
      assert Roots(parent[..], depth) == final;
      roots := roots + [r];
    }
  }

  method Unite(n: nat, recs: seq<Rec>, starts: seq<nat>) returns (roots: seq<nat>)
    requires StartsOk(recs, starts)
    requires forall k :: 0 <= k < |recs| ==> recs[k].face < n
    ensures |roots| == n && (forall i :: 0 <= i < n ==> roots[i] < n)
    ensures Classifies(PairsAt(recs, starts), roots)
  {
    var parent := new nat[n](i => i);
    ghost var depth: seq<nat> := seq(n, i => 0);
    ghost var pairs := PairsAt(recs, starts);
    NoPairs(n, Roots(parent[..], depth));
    assert pairs[..0] == [];
    for k := 0 to |starts|
      invariant Forest(parent[..], depth) && Classifies(pairs[..k], Roots(parent[..], depth))
    {
      var s0 := starts[k];
      assert pairs[..k + 1] == pairs[..k] + [(recs[s0].face, recs[s0 + 1].face)];
      depth := UniteOne(parent, depth, pairs[..k], recs[s0].face, recs[s0 + 1].face);
    }
    assert pairs[..|starts|] == pairs;
    roots := RootList(parent, depth);
  }

  // ---- the parts -----------------------------------------------------------------------------------------

  predicate Increasing(m: seq<nat>, n: nat) {
    (forall i, j :: 0 <= i < j < |m| ==> m[i] < m[j]) && forall i :: 0 <= i < |m| ==> m[i] < n
  }

  /** The faces below `n` whose root is `r`, in order: `tri[roots == r]`. */
  function Members(roots: seq<nat>, r: nat, n: nat): (m: seq<nat>)
    requires n <= |roots|
    ensures forall i :: i in m ==> i < n && roots[i] == r
    ensures forall i: nat :: i < n && roots[i] == r ==> i in m
    ensures Increasing(m, n)
  {
    if n == 0 then [] else Members(roots, r, n - 1) + if roots[n - 1] == r then [n - 1] else []
  }

  ghost predicate InSome(parts: seq<seq<nat>>, i: nat) { exists k :: 0 <= k < |parts| && i in parts[k] }

  /** Every face below `n` is in exactly one part; each part lists its faces, at least one, in order. */
  ghost predicate Partition(n: nat, parts: seq<seq<nat>>) {
    && (forall k :: 0 <= k < |parts| ==> parts[k] != [] && Increasing(parts[k], n))
    && (forall i: nat :: i < n ==> InSome(parts, i))
    && (forall k, l, i :: 0 <= k < |parts| && 0 <= l < |parts| && i in parts[k] && i in parts[l] ==> k == l)
  }

  ghost predicate SamePart(parts: seq<seq<nat>>, i: nat, j: nat) {
    exists k :: 0 <= k < |parts| && i in parts[k] && j in parts[k]
  }

  /** `np.unique(roots)`, as far as the roots below `n`. */
  function Unique(roots: seq<nat>, n: nat): (keys: seq<nat>)
    ensures Increasing(keys, n)
    ensures forall r :: r in keys ==> r in roots
    ensures forall r: nat :: r < n && r in roots ==> r in keys
  {
    if n == 0 then [] else Unique(roots, n - 1) + if n - 1 in roots then [n - 1] else []
  }

  /** `[tri[roots == r] for r in np.unique(roots)]`. */
  method Split(roots: seq<nat>) returns (parts: seq<seq<nat>>)
    ensures ByRoot(roots, Unique(roots, |roots|), parts)
  {
    var keys := Unique(roots, |roots|);
    ghost var all := Grouped(roots, keys);
    parts := [];
    for k := 0 to |keys|
      invariant parts == all[..k]
    {
      SliceNext(all, k);
      parts := parts + [Members(roots, keys[k], |roots|)];
    }
    assert all[..|keys|] == all;
  }

  function Grouped(roots: seq<nat>, keys: seq<nat>): (parts: seq<seq<nat>>)
    ensures ByRoot(roots, keys, parts)
  {
    seq(|keys|, k requires 0 <= k < |keys| => Members(roots, keys[k], |roots|))
  }

  lemma SliceNext<T>(all: seq<T>, k: nat)
    requires k < |all|
    ensures all[..k + 1] == all[..k] + [all[k]]
  {
  }

  ghost predicate ByRoot(roots: seq<nat>, keys: seq<nat>, parts: seq<seq<nat>>) {
    |parts| == |keys| && forall k :: 0 <= k < |parts| ==> parts[k] == Members(roots, keys[k], |roots|)
  }

  lemma RootPart(roots: seq<nat>, parts: seq<seq<nat>>, i: nat) returns (k: nat)
    requires ByRoot(roots, Unique(roots, |roots|), parts)
    requires i < |roots| && roots[i] < |roots|
    ensures k < |parts| && i in parts[k] && Unique(roots, |roots|)[k] == roots[i]
  {
    var keys := Unique(roots, |roots|);
    assert roots[i] in keys;
    k :| 0 <= k < |keys| && keys[k] == roots[i];
  }

  /** Grouping by root partitions the faces. */
  lemma GroupsPartition(roots: seq<nat>, parts: seq<seq<nat>>)
    requires ByRoot(roots, Unique(roots, |roots|), parts)
    requires forall i :: 0 <= i < |roots| ==> roots[i] < |roots|
    ensures Partition(|roots|, parts)
  {
    var keys := Unique(roots, |roots|);
    forall k | 0 <= k < |parts| ensures parts[k] != [] && Increasing(parts[k], |roots|) {
      assert keys[k] in roots;
      var i :| 0 <= i < |roots| && roots[i] == keys[k];
      assert i in parts[k];
    }
    forall i: nat | i < |roots| ensures InSome(parts, i) {
      var k := RootPart(roots, parts, i);
    }
    forall k, l, i | 0 <= k < |parts| && 0 <= l < |parts| && i in parts[k] && i in parts[l] ensures k == l {
      assert keys[k] == roots[i] == keys[l];
    }
  }

  lemma SamePartIsSameRoot(roots: seq<nat>, parts: seq<seq<nat>>, i: nat, j: nat)
    requires ByRoot(roots, Unique(roots, |roots|), parts)
    requires i < |roots| && j < |roots| && roots[i] < |roots|
    ensures SamePart(parts, i, j) <==> roots[i] == roots[j]
  {
    var k := RootPart(roots, parts, i);
    if roots[i] == roots[j] { assert j in parts[k]; }
  }

  // ---- the components of a mesh ----------------------------------------------------------------------------

  /** Faces `i` and `j` carry the two records of an edge that has exactly two. */
  ghost predicate ShareManifoldEdge(faces: seq<Face>, i: nat, j: nat) {
    exists e :: FacesOf(Records(faces), e) == [i, j] || FacesOf(Records(faces), e) == [j, i]
  }

  ghost predicate FaceChain(faces: seq<Face>, path: seq<nat>, i: nat, j: nat) {
    && |path| > 0 && path[0] == i && path[|path| - 1] == j
    && (forall k :: 0 <= k < |path| ==> path[k] < |faces|)
    && forall k :: 0 <= k < |path| - 1 ==> ShareManifoldEdge(faces, path[k], path[k + 1])
  }

  ghost predicate Connected(faces: seq<Face>, i: nat, j: nat) {
    exists path :: FaceChain(faces, path, i, j)
  }

  /** `srt` are the records of `faces`, sorted. */
  ghost predicate SortedRecords(faces: seq<Face>, srt: seq<Rec>) {
    Sorted(srt) && forall e :: FacesOf(srt, e) == FacesOf(Records(faces), e)
  }

  lemma PairIsManifold(faces: seq<Face>, srt: seq<Rec>, s: nat)
    requires SortedRecords(faces, srt) && s + 1 < |srt| && IsPairStart(srt, s)
    ensures ShareManifoldEdge(faces, srt[s].face, srt[s + 1].face)
    ensures ShareManifoldEdge(faces, srt[s + 1].face, srt[s].face)
  {
    PairIsNext(srt, s);
    assert FacesOf(Records(faces), srt[s].edge) == [srt[s].face, srt[s + 1].face];
  }

  lemma ManifoldIsPair(faces: seq<Face>, srt: seq<Rec>, i: nat, j: nat) returns (s: nat)
    requires SortedRecords(faces, srt) && ShareManifoldEdge(faces, i, j)
    ensures s + 1 < |srt| && IsPairStart(srt, s)
    ensures (srt[s].face, srt[s + 1].face) == (i, j) || (srt[s].face, srt[s + 1].face) == (j, i)
  {
    var e :| FacesOf(Records(faces), e) == [i, j] || FacesOf(Records(faces), e) == [j, i];
    s := PairHasStart(srt, e);
    PairIsNext(srt, s);
  }

  /** `pairs` are the two faces at each pair start of `srt`, all of them. */
  ghost predicate PairsOf(srt: seq<Rec>, starts: seq<nat>, pairs: seq<Pair>) {
    && |pairs| == |starts|
    && (forall k :: 0 <= k < |starts| ==> starts[k] + 1 < |srt| && IsPairStart(srt, starts[k]))
    && (forall k :: 0 <= k < |starts| ==> pairs[k].0 == srt[starts[k]].face && pairs[k].1 == srt[starts[k] + 1].face)
    && (forall s: nat :: s < |srt| && IsPairStart(srt, s) ==> s in starts)
  }

  lemma AdjacentIsManifold(faces: seq<Face>, srt: seq<Rec>, starts: seq<nat>, pairs: seq<Pair>, i: nat, j: nat)
    requires SortedRecords(faces, srt) && PairsOf(srt, starts, pairs) && Adjacent(pairs, i, j)
    ensures ShareManifoldEdge(faces, i, j)
  {
    var k :| 0 <= k < |pairs| && (pairs[k] == (i, j) || pairs[k] == (j, i));
    PairIsManifold(faces, srt, starts[k]);
  }

  lemma ManifoldIsAdjacent(faces: seq<Face>, srt: seq<Rec>, starts: seq<nat>, pairs: seq<Pair>, i: nat, j: nat)
    requires SortedRecords(faces, srt) && PairsOf(srt, starts, pairs) && ShareManifoldEdge(faces, i, j)
    ensures Adjacent(pairs, i, j)
  {
    var s := ManifoldIsPair(faces, srt, i, j);
    var k :| 0 <= k < |starts| && starts[k] == s;
    assert pairs[k] in pairs;
  }

  /** The pairs the loop unites are exactly the pairs of faces that share a manifold edge. */
  lemma PairsAreManifold(faces: seq<Face>, srt: seq<Rec>, starts: seq<nat>, pairs: seq<Pair>, i: nat, j: nat)
    requires SortedRecords(faces, srt) && PairsOf(srt, starts, pairs)
    ensures Adjacent(pairs, i, j) <==> ShareManifoldEdge(faces, i, j)
  {
    if Adjacent(pairs, i, j) { AdjacentIsManifold(faces, srt, starts, pairs, i, j); }
    if ShareManifoldEdge(faces, i, j) { ManifoldIsAdjacent(faces, srt, starts, pairs, i, j); }
  }

  lemma ConnectedIsLinked(faces: seq<Face>, srt: seq<Rec>, starts: seq<nat>, pairs: seq<Pair>, i: nat, j: nat)
    requires SortedRecords(faces, srt) && PairsOf(srt, starts, pairs)
    ensures Linked(|faces|, pairs, i, j) <==> Connected(faces, i, j)
  {
    var n := |faces|;
    if Linked(n, pairs, i, j) {
      var path :| ChainFrom(n, pairs, path, i, j);
      forall k | 0 <= k < |path| - 1 ensures ShareManifoldEdge(faces, path[k], path[k + 1]) {
        PairsAreManifold(faces, srt, starts, pairs, path[k], path[k + 1]);
      }
      assert FaceChain(faces, path, i, j);
    }
    if Connected(faces, i, j) {
      var path :| FaceChain(faces, path, i, j);
      forall k | 0 <= k < |path| - 1 ensures Adjacent(pairs, path[k], path[k + 1]) {
        PairsAreManifold(faces, srt, starts, pairs, path[k], path[k + 1]);
      }
      assert ChainFrom(n, pairs, path, i, j);
    }
  }

  lemma {:induction false} SortMembers(recs: seq<Rec>)
    ensures Sorted(Sort(recs)) && forall r :: r in Sort(recs) <==> r in recs
  {
    if recs != [] {
      var init, last := recs[..|recs| - 1], recs[|recs| - 1];
      SortMembers(init);
      InsertSorted(Sort(init), last);
      assert recs == init + [last];
    }
  }

  /** `components`: the parts partition the faces, and two faces share a part exactly when a chain of faces
      links them, each neighbouring two sharing an edge with exactly two records. */
  method ComponentsOf(faces: seq<Face>) returns (parts: seq<seq<nat>>)
    ensures Partition(|faces|, parts)
    ensures forall i, j :: 0 <= i < |faces| && 0 <= j < |faces| ==>
      (SamePart(parts, i, j) <==> Connected(faces, i, j))
  {
    var srt := Sort(Records(faces));
    var starts := PairStarts(srt, |srt|);
    SortMembers(Records(faces));
    forall e ensures FacesOf(srt, e) == FacesOf(Records(faces), e) { SortKeepsFaces(Records(faces), e); }
    forall k | 0 <= k < |starts| ensures starts[k] + 1 < |srt| {
      assert starts[k] in starts;
      PairIsNext(srt, starts[k]);
    }
    forall k | 0 <= k < |srt| ensures srt[k].face < |faces| { assert srt[k] in Records(faces); }
    var roots := Unite(|faces|, srt, starts);
    parts := Split(roots);
    GroupsPartition(roots, parts);
    forall i, j | 0 <= i < |faces| && 0 <= j < |faces|
      ensures SamePart(parts, i, j) <==> Connected(faces, i, j)
    {
      SamePartIsSameRoot(roots, parts, i, j);
      ConnectedIsLinked(faces, srt, starts, PairsAt(srt, starts), i, j);
    }
  }
}

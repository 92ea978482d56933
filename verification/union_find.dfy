/** The disjoint-set forest of `components`: a parent array, path halving, union by re-rooting. */
module UnionFind {

  /** Every step towards the parent comes strictly closer to a root. */
  ghost predicate Forest(p: seq<nat>, depth: seq<nat>) {
    && |p| == |depth|
    && forall i :: 0 <= i < |p| ==> p[i] < |p| && (p[i] != i ==> depth[p[i]] < depth[i])
  }

  ghost function Root(p: seq<nat>, depth: seq<nat>, i: nat): (r: nat)
    requires Forest(p, depth) && i < |p|
    ensures r < |p| && p[r] == r
    decreases depth[i]
  {
    if p[i] == i then i else Root(p, depth, p[i])
  }

  /** Pointing one node at its grandparent keeps the forest and every root in it. */
  lemma {:induction false} HalvingKeepsRoots(p: seq<nat>, depth: seq<nat>, a: nat, i: nat)
    requires Forest(p, depth) && a < |p| && i < |p|
    ensures Forest(p[a := p[p[a]]], depth)
    ensures Root(p[a := p[p[a]]], depth, i) == Root(p, depth, i)
    decreases depth[i]
  {
    var q := p[a := p[p[a]]];
    if q[i] != i { HalvingKeepsRoots(p, depth, a, q[i]); }
  }

  /** Hanging the root `rb` under the root `ra` merges their two trees and touches no other. */
  lemma UnionMergesRoots(p: seq<nat>, depth: seq<nat>, ra: nat, rb: nat) returns (depth': seq<nat>)
    requires Forest(p, depth) && ra < |p| && rb < |p| && ra != rb && p[ra] == ra && p[rb] == rb
    ensures Forest(p[rb := ra], depth')
    ensures forall i :: 0 <= i < |p| ==>
      Root(p[rb := ra], depth', i) == if Root(p, depth, i) == rb then ra else Root(p, depth, i)
  {
    depth' := Deeper(p, depth, ra, rb, |p|);
    var q := p[rb := ra];
    forall i | 0 <= i < |q| ensures q[i] != i ==> depth'[q[i]] < depth'[i] {
      if i != rb && p[i] != i { assert Root(p, depth, p[i]) == Root(p, depth, i); }
    }
    forall i | 0 <= i < |p|
      ensures Root(p[rb := ra], depth', i) == if Root(p, depth, i) == rb then ra else Root(p, depth, i)
    {
      MergedRoot(p, depth, ra, rb, depth', i);
    }
  }

  ghost function NewDepth(p: seq<nat>, depth: seq<nat>, ra: nat, rb: nat, i: nat): nat
    requires Forest(p, depth) && ra < |p| && i < |p|
  {
    depth[i] + if Root(p, depth, i) == rb then depth[ra] + 1 else 0
  }

  /** The whole tree of `rb` moves below `ra`. */
  ghost function Deeper(p: seq<nat>, depth: seq<nat>, ra: nat, rb: nat, n: nat): (d: seq<nat>)
    requires Forest(p, depth) && ra < |p| && n <= |p|
    ensures |d| == n && forall i: nat :: i < n ==> d[i] == NewDepth(p, depth, ra, rb, i)
  {
    if n == 0 then [] else Deeper(p, depth, ra, rb, n - 1) + [NewDepth(p, depth, ra, rb, n - 1)]
  }

  lemma {:induction false} MergedRoot(p: seq<nat>, depth: seq<nat>, ra: nat, rb: nat, depth': seq<nat>, i: nat)
    requires Forest(p, depth) && i < |p|
    requires ra < |p| && rb < |p| && ra != rb && p[ra] == ra && p[rb] == rb
    requires Forest(p[rb := ra], depth')
    ensures Root(p[rb := ra], depth', i) == if Root(p, depth, i) == rb then ra else Root(p, depth, i)
    decreases depth[i]
  {
    if p[i] != i {
      MergedRoot(p, depth, ra, rb, depth', p[i]);
    } else if i == rb {
      assert Root(p[rb := ra], depth', ra) == ra;
    }
  }

  /** `find`, with path halving: it ends, answers the root, and changes no root. */
  method Find(parent: array<nat>, ghost depth: seq<nat>, a: nat) returns (r: nat)
    requires Forest(parent[..], depth) && a < parent.Length
    modifies parent
    ensures Forest(parent[..], depth) && r == Root(old(parent[..]), depth, a)
    ensures forall i :: 0 <= i < parent.Length ==> Root(parent[..], depth, i) == Root(old(parent[..]), depth, i)
  {
    r := a;
    while parent[r] != r
      invariant r < parent.Length && Forest(parent[..], depth)
      invariant forall i :: 0 <= i < parent.Length ==> Root(parent[..], depth, i) == Root(old(parent[..]), depth, i)
      invariant Root(parent[..], depth, r) == Root(parent[..], depth, a)
      decreases depth[r]
    {
      ghost var p := parent[..];
      forall i | 0 <= i < parent.Length
        ensures Forest(p[r := p[p[r]]], depth) && Root(p[r := p[p[r]]], depth, i) == Root(p, depth, i)
      {
        HalvingKeepsRoots(p, depth, r, i);
      }
      parent[r] := parent[parent[r]];
      assert parent[..] == p[r := p[p[r]]];
      assert Root(p, depth, p[p[r]]) == Root(p, depth, r);
      r := parent[r];
    }
  }
}

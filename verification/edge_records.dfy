/** The edge records of a mesh, sorted by edge, and the pairs of faces that meet at an edge with exactly
    two records. */
module EdgeRecords {

  /** A face by its three vertex numbers; two numbers are equal exactly when the vertices are. */
  datatype Face = Face(a: nat, b: nat, c: nat)

  datatype Edge = Edge(lo: nat, hi: nat)

  datatype Rec = Rec(edge: Edge, face: nat)

  function EdgeOf(u: nat, v: nat): Edge { if u <= v then Edge(u, v) else Edge(v, u) }

  /** The order `lexsort` sorts by. */
  predicate AtMost(e: Edge, f: Edge) { e.lo < f.lo || (e.lo == f.lo && e.hi <= f.hi) }

  /** All (0,1) edges in face order, then all (1,2) edges, then all (0,2) edges. */
  function Records(faces: seq<Face>): (r: seq<Rec>)
    ensures forall k :: 0 <= k < |r| ==> r[k].face < |faces|
  {
    seq(|faces|, i requires 0 <= i < |faces| => Rec(EdgeOf(faces[i].a, faces[i].b), i))
    + seq(|faces|, i requires 0 <= i < |faces| => Rec(EdgeOf(faces[i].b, faces[i].c), i))
    + seq(|faces|, i requires 0 <= i < |faces| => Rec(EdgeOf(faces[i].a, faces[i].c), i))
  }

  /** The faces that have one of the first `m` records of `e`, one entry per record, in record order. */
  function FacesUpTo(recs: seq<Rec>, e: Edge, m: nat): seq<nat>
    requires m <= |recs|
  {
    if m == 0 then [] else
      FacesUpTo(recs, e, m - 1) + if recs[m - 1].edge == e then [recs[m - 1].face] else []
  }

  function FacesOf(recs: seq<Rec>, e: Edge): seq<nat> { FacesUpTo(recs, e, |recs|) }

  lemma {:induction false} FacesFrame(recs: seq<Rec>, other: seq<Rec>, e: Edge, m: nat)
    requires m <= |recs| && m <= |other| && forall k :: 0 <= k < m ==> recs[k] == other[k]
    ensures FacesUpTo(recs, e, m) == FacesUpTo(other, e, m)
  {
    if m > 0 { FacesFrame(recs, other, e, m - 1); }
  }

  // ---- the stable sort -----------------------------------------------------------------------------

  function Insert(recs: seq<Rec>, r: Rec): seq<Rec> {
    if recs == [] || AtMost(recs[|recs| - 1].edge, r.edge) then recs + [r]
    else Insert(recs[..|recs| - 1], r) + [recs[|recs| - 1]]
  }

  function Sort(recs: seq<Rec>): seq<Rec> {
    if recs == [] then [] else Insert(Sort(recs[..|recs| - 1]), recs[|recs| - 1])
  }

  ghost predicate Sorted(recs: seq<Rec>) {
    forall i, j :: 0 <= i < j < |recs| ==> AtMost(recs[i].edge, recs[j].edge)
  }

  lemma {:induction false} InsertSorted(recs: seq<Rec>, r: Rec)
    requires Sorted(recs)
    ensures Sorted(Insert(recs, r))
    ensures forall x :: x in Insert(recs, r) <==> x in recs || x == r
  {
    if recs != [] && !AtMost(recs[|recs| - 1].edge, r.edge) {
      var init, last := recs[..|recs| - 1], recs[|recs| - 1];
      InsertSorted(init, r);
      assert recs == init + [last];
      forall x | x in Insert(init, r) ensures AtMost(x.edge, last.edge) {
        if x in init { var i :| 0 <= i < |init| && init[i] == x; assert recs[i] == x; }
      }
    }
  }

  lemma FacesSnoc(recs: seq<Rec>, r: Rec, e: Edge)
    ensures FacesOf(recs + [r], e) == FacesOf(recs, e) + if r.edge == e then [r.face] else []
  {
    FacesFrame(recs, recs + [r], e, |recs|);
  }

  lemma {:induction false} InsertFaces(recs: seq<Rec>, r: Rec, e: Edge)
    ensures FacesOf(Insert(recs, r), e) == FacesOf(recs, e) + if r.edge == e then [r.face] else []
  {
    if recs != [] && !AtMost(recs[|recs| - 1].edge, r.edge) {
      var init, last := recs[..|recs| - 1], recs[|recs| - 1];
      InsertFaces(init, r, e);
      FacesSnoc(Insert(init, r), last, e);
      FacesSnoc(init, last, e);
      assert recs == init + [last];
    } else {
      FacesSnoc(recs, r, e);
    }
  }

  /** Sorting keeps, edge by edge, the records and their order. */
  lemma {:induction false} SortKeepsFaces(recs: seq<Rec>, e: Edge)
    ensures Sorted(Sort(recs)) && FacesOf(Sort(recs), e) == FacesOf(recs, e)
  {
    if recs != [] {
      var init, last := recs[..|recs| - 1], recs[|recs| - 1];
      SortKeepsFaces(init, e);
      InsertSorted(Sort(init), last);
      InsertFaces(Sort(init), last, e);
      FacesSnoc(init, last, e);
      assert recs == init + [last];
    }
  }

  // ---- edges with exactly two records ----------------------------------------------------------------

  /** `np.unique(..., return_index, return_counts)`: the first record of its edge, of two in all. */
  predicate IsPairStart(recs: seq<Rec>, s: nat)
    requires s < |recs|
  {
    (forall k :: 0 <= k < s ==> recs[k].edge != recs[s].edge) && |FacesOf(recs, recs[s].edge)| == 2
  }

  /** `start[cnt == 2]` among the first `n` records. */
  function PairStarts(recs: seq<Rec>, n: nat): (r: seq<nat>)
    requires n <= |recs|
    ensures forall s :: s in r ==> s < n && IsPairStart(recs, s)
    ensures forall s: nat :: s < n && IsPairStart(recs, s) ==> s in r
  {
    if n == 0 then [] else PairStarts(recs, n - 1) + if IsPairStart(recs, n - 1) then [n - 1] else []
  }

  lemma {:induction false} FacesPrefix(recs: seq<Rec>, e: Edge, m: nat, n: nat)
    requires m <= n <= |recs|
    ensures FacesUpTo(recs, e, m) <= FacesUpTo(recs, e, n)
    ensures (forall k :: m <= k < n ==> recs[k].edge != e) ==> FacesUpTo(recs, e, m) == FacesUpTo(recs, e, n)
    decreases n
  {
    if m < n { FacesPrefix(recs, e, m, n - 1); }
  }

  lemma LaterDiffer(recs: seq<Rec>, s: nat)
    requires Sorted(recs) && s < |recs| && (s + 1 < |recs| ==> recs[s + 1].edge != recs[s].edge)
    ensures forall k :: s + 1 <= k < |recs| ==> recs[k].edge != recs[s].edge
  {
    forall k | s + 1 <= k < |recs| ensures recs[k].edge != recs[s].edge {
      assert AtMost(recs[s].edge, recs[s + 1].edge) && (k > s + 1 ==> AtMost(recs[s + 1].edge, recs[k].edge));
    }
  }

  /** In sorted order the second record of a pair is the next one, so `fo[s0]`, `fo[s0 + 1]` are its faces. */
  lemma PairIsNext(recs: seq<Rec>, s: nat)
    requires Sorted(recs) && s < |recs| && IsPairStart(recs, s)
    ensures s + 1 < |recs| && recs[s + 1].edge == recs[s].edge
    ensures FacesOf(recs, recs[s].edge) == [recs[s].face, recs[s + 1].face]
  {
    var e, n := recs[s].edge, |recs|;
    FacesPrefix(recs, e, 0, s);
    if s + 1 == n || recs[s + 1].edge != e {
      LaterDiffer(recs, s);
      FacesPrefix(recs, e, s + 1, n);
      assert false;
    }
    FacesPrefix(recs, e, s + 2, n);
  }

  function FirstIndex(recs: seq<Rec>, e: Edge): (s: nat)
    ensures s <= |recs| && (s < |recs| ==> recs[s].edge == e) && forall k :: 0 <= k < s ==> recs[k].edge != e
  {
    if recs == [] || recs[0].edge == e then 0 else 1 + FirstIndex(recs[1..], e)
  }

  /** Every edge with exactly two records starts somewhere in the sorted records. */
  lemma PairHasStart(recs: seq<Rec>, e: Edge) returns (s: nat)
    requires |FacesOf(recs, e)| == 2
    ensures s < |recs| && recs[s].edge == e && IsPairStart(recs, s)
  {
    s := FirstIndex(recs, e);
    if s == |recs| {
      FacesPrefix(recs, e, 0, |recs|);
    }
  }
}

/** Mesh decimation by vertex clustering with the mean as representative, over real coordinates. */
module Decimation {

  datatype Point = Point(x: real, y: real, z: real)

  datatype Tri = Tri(a: Point, b: Point, c: Point)

  /** A voxel, by its integer coordinates. */
  datatype Cell = Cell(i: int, j: int, k: int)

  datatype CellFace = CellFace(a: Cell, b: Cell, c: Cell)

  datatype Axis = X | Y | Z

  function Coord(p: Point, axis: Axis): real {
    match axis case X => p.x case Y => p.y case Z => p.z
  }

  function Index(c: Cell, axis: Axis): int {
    match axis case X => c.i case Y => c.j case Z => c.k
  }

  function Plus(p: Point, q: Point): Point { Point(p.x + q.x, p.y + q.y, p.z + q.z) }

  /** `floor(v / voxel)`, axis by axis. */
  function CellOf(p: Point, voxel: real): Cell
    requires voxel > 0.0
  {
    Cell((p.x / voxel).Floor, (p.y / voxel).Floor, (p.z / voxel).Floor)
  }

  /** `tri.reshape(-1, 3)`. */
  function Vertices(tri: seq<Tri>): (vs: seq<Point>)
    ensures |vs| == 3 * |tri|
    ensures forall t :: 0 <= t < |tri| ==>
      vs[3 * t] == tri[t].a && vs[3 * t + 1] == tri[t].b && vs[3 * t + 2] == tri[t].c
  {
    if tri == [] then [] else
      var t := tri[|tri| - 1];
      Vertices(tri[..|tri| - 1]) + [t.a, t.b, t.c]
  }

  // ---- clusters ------------------------------------------------------------------------------------

  function Count(vs: seq<Point>, voxel: real, cell: Cell): nat
    requires voxel > 0.0
  {
    if vs == [] then 0 else
      Count(vs[..|vs| - 1], voxel, cell) + if CellOf(vs[|vs| - 1], voxel) == cell then 1 else 0
  }

  function Sum(vs: seq<Point>, voxel: real, cell: Cell): Point
    requires voxel > 0.0
  {
    if vs == [] then Point(0.0, 0.0, 0.0) else
      var rest := Sum(vs[..|vs| - 1], voxel, cell);
      if CellOf(vs[|vs| - 1], voxel) == cell then Plus(rest, vs[|vs| - 1]) else rest
  }

  /** `np.add.at(sums, inv, v)` and `np.bincount(inv)`. */
  method Accumulate(vs: seq<Point>, voxel: real) returns (sums: map<Cell, Point>, counts: map<Cell, nat>)
    requires voxel > 0.0
    ensures forall p :: p in vs ==> CellOf(p, voxel) in counts
    ensures forall c :: c in counts <==> c in sums
    ensures forall c :: c in counts ==>
      sums[c] == Sum(vs, voxel, c) && counts[c] == Count(vs, voxel, c) && counts[c] > 0
  {
    sums, counts := map[], map[];
    for n := 0 to |vs|
      invariant forall i :: 0 <= i < n ==> CellOf(vs[i], voxel) in counts
      invariant forall c :: c in counts <==> c in sums
      invariant forall c :: c in counts ==>
        sums[c] == Sum(vs[..n], voxel, c) && counts[c] == Count(vs[..n], voxel, c) > 0
      invariant forall c :: c !in counts ==>
        Sum(vs[..n], voxel, c) == Point(0.0, 0.0, 0.0) && Count(vs[..n], voxel, c) == 0
    {
      var cell := CellOf(vs[n], voxel);
      assert vs[..n + 1][..n] == vs[..n];
      if cell in sums {
        sums := sums[cell := Plus(sums[cell], vs[n])];
        counts := counts[cell := counts[cell] + 1];
      } else {
        sums := sums[cell := vs[n]];
        counts := counts[cell := 1];
      }
    }
    assert vs[..|vs|] == vs;
  }

  /** `rep = sums / cnt`. */
  function Mean(sum: Point, count: nat): Point
    requires count > 0
  {
    Point(sum.x / count as real, sum.y / count as real, sum.z / count as real)
  }

  function Rep(vs: seq<Point>, voxel: real, cell: Cell): Point
    requires voxel > 0.0 && Count(vs, voxel, cell) > 0
  {
    Mean(Sum(vs, voxel, cell), Count(vs, voxel, cell))
  }

  lemma {:induction false} Counted(vs: seq<Point>, voxel: real, i: nat)
    requires voxel > 0.0 && i < |vs|
    ensures Count(vs, voxel, CellOf(vs[i], voxel)) > 0
  {
    if i < |vs| - 1 { Counted(vs[..|vs| - 1], voxel, i); }
  }

  /** `n` copies of `x` added up. */
  function Copies(n: nat, x: real): real { if n == 0 then 0.0 else Copies(n - 1, x) + x }

  lemma {:induction false} CopiesIsProduct(n: nat, x: real)
    ensures Copies(n, x) == n as real * x
  {
    if n > 0 { CopiesIsProduct(n - 1, x); }
  }

  ghost predicate AllAtLeast(vs: seq<Point>, voxel: real, cell: Cell, axis: Axis, lo: real)
    requires voxel > 0.0
  {
    forall i :: 0 <= i < |vs| && CellOf(vs[i], voxel) == cell ==> lo <= Coord(vs[i], axis)
  }

  ghost predicate AllAtMost(vs: seq<Point>, voxel: real, cell: Cell, axis: Axis, hi: real)
    requires voxel > 0.0
  {
    forall i :: 0 <= i < |vs| && CellOf(vs[i], voxel) == cell ==> Coord(vs[i], axis) <= hi
  }

  ghost predicate AllBelow(vs: seq<Point>, voxel: real, cell: Cell, axis: Axis, hi: real)
    requires voxel > 0.0
  {
    forall i :: 0 <= i < |vs| && CellOf(vs[i], voxel) == cell ==> Coord(vs[i], axis) < hi
  }

  lemma {:induction false} SumAtLeast(vs: seq<Point>, voxel: real, cell: Cell, axis: Axis, lo: real)
    requires voxel > 0.0 && AllAtLeast(vs, voxel, cell, axis, lo)
    ensures Copies(Count(vs, voxel, cell), lo) <= Coord(Sum(vs, voxel, cell), axis)
  {
    if vs != [] { SumAtLeast(vs[..|vs| - 1], voxel, cell, axis, lo); }
  }

  lemma {:induction false} SumAtMost(vs: seq<Point>, voxel: real, cell: Cell, axis: Axis, hi: real)
    requires voxel > 0.0 && AllAtMost(vs, voxel, cell, axis, hi)
    ensures Coord(Sum(vs, voxel, cell), axis) <= Copies(Count(vs, voxel, cell), hi)
  {
    if vs != [] { SumAtMost(vs[..|vs| - 1], voxel, cell, axis, hi); }
  }

  lemma {:induction false} SumBelow(vs: seq<Point>, voxel: real, cell: Cell, axis: Axis, hi: real)
    requires voxel > 0.0 && AllBelow(vs, voxel, cell, axis, hi)
    ensures Coord(Sum(vs, voxel, cell), axis) < Copies(Count(vs, voxel, cell), hi) || Count(vs, voxel, cell) == 0
    ensures Count(vs, voxel, cell) == 0 ==> Sum(vs, voxel, cell) == Point(0.0, 0.0, 0.0)
  {
    if vs != [] { SumBelow(vs[..|vs| - 1], voxel, cell, axis, hi); }
  }

  lemma QuotientBounds(s: real, n: nat, bound: real)
    requires n > 0
    ensures Copies(n, bound) <= s ==> bound <= s / n as real
    ensures s <= Copies(n, bound) ==> s / n as real <= bound
    ensures s < Copies(n, bound) ==> s / n as real < bound
  {
    CopiesIsProduct(n, bound);
    var q := s / n as real;
    assert q * n as real == s;
    if q < bound { assert (bound - q) * n as real > 0.0; }
    if q > bound { assert (q - bound) * n as real > 0.0; }
  }

  /** The representative lies between any bounds of the vertices it stands for. */
  lemma RepBetween(vs: seq<Point>, voxel: real, cell: Cell, axis: Axis, lo: real, hi: real)
    requires voxel > 0.0 && Count(vs, voxel, cell) > 0
    requires AllAtLeast(vs, voxel, cell, axis, lo) && AllAtMost(vs, voxel, cell, axis, hi)
    ensures lo <= Coord(Rep(vs, voxel, cell), axis) <= hi
  {
    SumAtLeast(vs, voxel, cell, axis, lo);
    SumAtMost(vs, voxel, cell, axis, hi);
    var s, n := Coord(Sum(vs, voxel, cell), axis), Count(vs, voxel, cell);
    QuotientBounds(s, n, lo);
    QuotientBounds(s, n, hi);
  }

  // ---- where the representative lies ---------------------------------------------------------------

  lemma InCell(x: real, voxel: real, i: int)
    requires voxel > 0.0
    ensures ((x / voxel).Floor == i) <==> (i as real * voxel <= x < i as real * voxel + voxel)
  {
    var q, lo := x / voxel, i as real;
    assert q * voxel == x;
    assert (q - lo) * voxel == x - lo * voxel;
    ProductSign(q - lo, voxel);
    ProductSign(q - lo - 1.0, voxel);
    assert (q - lo - 1.0) * voxel == (q - lo) * voxel - voxel;
  }

  lemma ProductSign(x: real, y: real)
    requires y > 0.0
    ensures x * y >= 0.0 <==> x >= 0.0
  {
    if x < 0.0 { assert -x * y > 0.0; }
  }

  /** The lower side of a voxel along an axis. */
  function Side(cell: Cell, voxel: real, axis: Axis): real { Index(cell, axis) as real * voxel }

  lemma CellSides(p: Point, voxel: real, axis: Axis, cell: Cell)
    requires voxel > 0.0 && cell == CellOf(p, voxel)
    ensures Side(cell, voxel, axis) <= Coord(p, axis) < Side(cell, voxel, axis) + voxel
  {
    InCell(Coord(p, axis), voxel, Index(cell, axis));
  }

  /** A representative never leaves its voxel. */
  lemma RepInCell(vs: seq<Point>, voxel: real, cell: Cell)
    requires voxel > 0.0 && Count(vs, voxel, cell) > 0
    ensures CellOf(Rep(vs, voxel, cell), voxel) == cell
  {
    RepInCellAlong(vs, voxel, cell, X);
    RepInCellAlong(vs, voxel, cell, Y);
    RepInCellAlong(vs, voxel, cell, Z);
  }

  lemma RepInCellAlong(vs: seq<Point>, voxel: real, cell: Cell, axis: Axis)
    requires voxel > 0.0 && Count(vs, voxel, cell) > 0
    ensures (Coord(Rep(vs, voxel, cell), axis) / voxel).Floor == Index(cell, axis)
  {
    var lo := Side(cell, voxel, axis);
    forall n | 0 <= n < |vs| && CellOf(vs[n], voxel) == cell
      ensures lo <= Coord(vs[n], axis) < lo + voxel
    {
      CellSides(vs[n], voxel, axis, cell);
    }
    RepWithin(vs, voxel, cell, axis, lo, lo + voxel);
    BetweenSides(Coord(Rep(vs, voxel, cell), axis), voxel, cell, axis);
  }

  lemma BetweenSides(x: real, voxel: real, cell: Cell, axis: Axis)
    requires voxel > 0.0 && Side(cell, voxel, axis) <= x < Side(cell, voxel, axis) + voxel
    ensures (x / voxel).Floor == Index(cell, axis)
  {
    InCell(x, voxel, Index(cell, axis));
  }

  lemma RepWithin(vs: seq<Point>, voxel: real, cell: Cell, axis: Axis, lo: real, hi: real)
    requires voxel > 0.0 && Count(vs, voxel, cell) > 0
    requires AllAtLeast(vs, voxel, cell, axis, lo) && AllBelow(vs, voxel, cell, axis, hi)
    ensures lo <= Coord(Rep(vs, voxel, cell), axis) < hi
  {
    SumAtLeast(vs, voxel, cell, axis, lo);
    SumBelow(vs, voxel, cell, axis, hi);
    QuotientBounds(Coord(Sum(vs, voxel, cell), axis), Count(vs, voxel, cell), lo);
    QuotientBounds(Coord(Sum(vs, voxel, cell), axis), Count(vs, voxel, cell), hi);
  }

  /** A vertex moves by less than one voxel along each axis. */
  lemma MovesLessThanVoxel(vs: seq<Point>, voxel: real, n: nat, axis: Axis)
    requires voxel > 0.0 && n < |vs|
    ensures Count(vs, voxel, CellOf(vs[n], voxel)) > 0
    ensures -voxel < Coord(Rep(vs, voxel, CellOf(vs[n], voxel)), axis) - Coord(vs[n], axis) < voxel
  {
    Counted(vs, voxel, n);
    var cell := CellOf(vs[n], voxel);
    RepInCell(vs, voxel, cell);
    CellSides(vs[n], voxel, axis, cell);
    CellSides(Rep(vs, voxel, cell), voxel, axis, cell);
  }

  // ---- faces ---------------------------------------------------------------------------------------

  /** `inv.reshape(-1, 3)`: the three cells of each triangle. */
  function CellFaces(tri: seq<Tri>, voxel: real): (fs: seq<CellFace>)
    requires voxel > 0.0
    ensures |fs| == |tri|
    ensures forall t :: 0 <= t < |tri| ==> fs[t] == FaceOf(tri[t], voxel)
  {
    if tri == [] then [] else CellFaces(tri[..|tri| - 1], voxel) + [FaceOf(tri[|tri| - 1], voxel)]
  }

  function FaceOf(t: Tri, voxel: real): CellFace
    requires voxel > 0.0
  {
    CellFace(CellOf(t.a, voxel), CellOf(t.b, voxel), CellOf(t.c, voxel))
  }

  predicate Proper(f: CellFace) { f.a != f.b && f.b != f.c && f.a != f.c }

  /** Rows of `np.sort(f, axis=1)` are equal: for proper faces, the same three cells. */
  predicate SameCells(f: CellFace, g: CellFace) { {f.a, f.b, f.c} == {g.a, g.b, g.c} }

  /** `f[keep]`. */
  function ProperOnly(fs: seq<CellFace>): seq<CellFace> {
    if fs == [] then [] else
      var n := |fs| - 1;
      ProperOnly(fs[..n]) + if Proper(fs[n]) then [fs[n]] else []
  }

  predicate SeenIn(fs: seq<CellFace>, f: CellFace) {
    exists i :: 0 <= i < |fs| && SameCells(fs[i], f)
  }

  /** `f[np.sort(first)]`: of the faces on the same cells only the first, the order kept. */
  function FirstOnly(fs: seq<CellFace>): seq<CellFace> {
    if fs == [] then [] else
      var n := |fs| - 1;
      FirstOnly(fs[..n]) + if SeenIn(fs[..n], fs[n]) then [] else [fs[n]]
  }

  function Kept(fs: seq<CellFace>): seq<CellFace> { FirstOnly(ProperOnly(fs)) }

  /** `i` is where three different cells are first joined. */
  ghost predicate Opens(fs: seq<CellFace>, i: nat)
    requires i < |fs|
  {
    Proper(fs[i]) && !SeenIn(fs[..i], fs[i])
  }

  /** `out` lists, in order, exactly the faces of `fs` at which three different cells are first joined. */
  ghost predicate Selects(fs: seq<CellFace>, out: seq<CellFace>, at: seq<nat>) {
    && |at| == |out|
    && (forall k :: 0 <= k < |at| ==> at[k] < |fs| && out[k] == fs[at[k]] && Opens(fs, at[k]))
    && (forall k, l :: 0 <= k < l < |at| ==> at[k] < at[l])
    && (forall i: nat :: i < |fs| && Opens(fs, i) ==> i in at)
  }

  lemma {:induction false} ProperOnlyMember(fs: seq<CellFace>, f: CellFace)
    ensures f in ProperOnly(fs) <==> f in fs && Proper(f)
  {
    if fs != [] {
      var n := |fs| - 1;
      ProperOnlyMember(fs[..n], f);
      assert fs == fs[..n] + [fs[n]];
    }
  }

  /** Dropping degenerate faces first does not change which proper faces were seen. */
  lemma SeenAmongProper(fs: seq<CellFace>, f: CellFace)
    requires Proper(f)
    ensures SeenIn(ProperOnly(fs), f) <==> SeenIn(fs, f)
  {
    var ps := ProperOnly(fs);
    if SeenIn(ps, f) {
      var i :| 0 <= i < |ps| && SameCells(ps[i], f);
      ProperOnlyMember(fs, ps[i]);
    }
    if SeenIn(fs, f) {
      var i :| 0 <= i < |fs| && SameCells(fs[i], f);
      SameCorners(fs[i], f);
      ProperOnlyMember(fs, fs[i]);
      var k :| 0 <= k < |ps| && ps[k] == fs[i];
    }
  }

  lemma SameCorners(f: CellFace, g: CellFace)
    requires SameCells(f, g) && Proper(g)
    ensures Proper(f)
  {
    var cells := {f.a, f.b, f.c};
    assert g.a in cells && g.b in cells && g.c in cells;
  }

  lemma KeptStep(fs: seq<CellFace>)
    requires fs != []
    ensures var n := |fs| - 1; Kept(fs) == Kept(fs[..n]) + if Opens(fs, n) then [fs[n]] else []
  {
    var n := |fs| - 1;
    if Proper(fs[n]) {
      var ps := ProperOnly(fs[..n]);
      assert ProperOnly(fs)[..|ps|] == ps;
      SeenAmongProper(fs[..n], fs[n]);
    } else {
      assert ProperOnly(fs) == ProperOnly(fs[..n]);
    }
  }

  lemma OpensInPrefix(fs: seq<CellFace>, n: nat, i: nat)
    requires i < n <= |fs|
    ensures Opens(fs[..n], i) <==> Opens(fs, i)
  {
    assert fs[..n][..i] == fs[..i];
  }

  lemma {:induction false} KeptSelects(fs: seq<CellFace>) returns (at: seq<nat>)
    ensures Selects(fs, Kept(fs), at)
  {
    if fs == [] { return []; }
    var n := |fs| - 1;
    var init := KeptSelects(fs[..n]);
    KeptStep(fs);
    forall i: nat | i < n ensures Opens(fs[..n], i) <==> Opens(fs, i) { OpensInPrefix(fs, n, i); }
    at := init + if Opens(fs, n) then [n] else [];
    SelectsStep(fs, Kept(fs[..n]), init, at);
  }

  lemma SelectsStep(fs: seq<CellFace>, out: seq<CellFace>, init: seq<nat>, at: seq<nat>)
    requires fs != [] && Selects(fs[..|fs| - 1], out, init)
    requires forall i: nat :: i < |fs| - 1 ==> (Opens(fs[..|fs| - 1], i) <==> Opens(fs, i))
    requires at == init + if Opens(fs, |fs| - 1) then [|fs| - 1] else []
    ensures Selects(fs, out + if Opens(fs, |fs| - 1) then [fs[|fs| - 1]] else [], at)
  {
    forall i: nat | i < |fs| && Opens(fs, i) ensures i in at {
      if i < |fs| - 1 { assert i in init; } else { assert at[|at| - 1] == i; }
    }
  }

  /**
    * Which faces come out: exactly those at which three different cells are first joined, in their
    * order. Hence none has a repeated cell and no two have the same cells.
    */
  lemma KeptExactly(fs: seq<CellFace>)
    ensures exists at :: Selects(fs, Kept(fs), at)
    ensures forall k :: 0 <= k < |Kept(fs)| ==> Proper(Kept(fs)[k])
    ensures forall k, l :: 0 <= k < l < |Kept(fs)| ==> !SameCells(Kept(fs)[k], Kept(fs)[l])
  {
    var out := Kept(fs);
    var at := KeptSelects(fs);
    forall k, l | 0 <= k < l < |out|
      ensures !SameCells(out[k], out[l])
    {
      var before := fs[..at[l]];
      assert before[at[k]] == out[k] && Opens(fs, at[l]);
    }
  }

  /** Faces that are already proper and all different stay as they are. */
  lemma {:induction false} KeptIsFixed(fs: seq<CellFace>)
    requires forall k :: 0 <= k < |fs| ==> Proper(fs[k])
    requires forall k, l :: 0 <= k < l < |fs| ==> !SameCells(fs[k], fs[l])
    ensures ProperOnly(fs) == fs && FirstOnly(fs) == fs
  {
    if fs != [] {
      var n := |fs| - 1;
      KeptIsFixed(fs[..n]);
      assert fs == fs[..n] + [fs[n]];
    }
  }

  // ---- the whole -----------------------------------------------------------------------------------

  ghost predicate Covers(vs: seq<Point>, voxel: real, f: CellFace)
    requires voxel > 0.0
  {
    Count(vs, voxel, f.a) > 0 && Count(vs, voxel, f.b) > 0 && Count(vs, voxel, f.c) > 0
  }

  function Placed(vs: seq<Point>, voxel: real, f: CellFace): Tri
    requires voxel > 0.0 && Covers(vs, voxel, f)
  {
    Tri(Rep(vs, voxel, f.a), Rep(vs, voxel, f.b), Rep(vs, voxel, f.c))
  }

  lemma FaceCovered(tri: seq<Tri>, voxel: real, t: nat)
    requires voxel > 0.0 && t < |tri|
    ensures Covers(Vertices(tri), voxel, FaceOf(tri[t], voxel))
  {
    var vs := Vertices(tri);
    Counted(vs, voxel, 3 * t);
    Counted(vs, voxel, 3 * t + 1);
    Counted(vs, voxel, 3 * t + 2);
  }

  lemma KeptCovered(tri: seq<Tri>, voxel: real)
    requires voxel > 0.0
    ensures forall k :: 0 <= k < |Kept(CellFaces(tri, voxel))| ==>
      Covers(Vertices(tri), voxel, Kept(CellFaces(tri, voxel))[k])
  {
    var fs := CellFaces(tri, voxel);
    var at := KeptSelects(fs);
    forall k | 0 <= k < |Kept(fs)| ensures Covers(Vertices(tri), voxel, Kept(fs)[k]) {
      FaceCovered(tri, voxel, at[k]);
    }
  }

  /** What `out` must be for `tri`: the kept faces, each corner replaced by its cell's mean. */
  ghost predicate IsDecimation(tri: seq<Tri>, voxel: real, out: seq<Tri>) {
    if voxel <= 0.0 then out == tri
    else
      var vs, fs := Vertices(tri), Kept(CellFaces(tri, voxel));
      |out| == |fs| && forall k :: 0 <= k < |fs| ==> Covers(vs, voxel, fs[k]) && out[k] == Placed(vs, voxel, fs[k])
  }

  method Decimate(tri: seq<Tri>, voxel: real) returns (out: seq<Tri>)
    ensures IsDecimation(tri, voxel, out)
  {
    if voxel <= 0.0 { return tri; }
    var vs := Vertices(tri);
    var sums, counts := Accumulate(vs, voxel);
    var fs := Kept(CellFaces(tri, voxel));
    KeptCovered(tri, voxel);
    out := [];
    for k := 0 to |fs|
      invariant |out| == k
      invariant forall l :: 0 <= l < k ==> out[l] == Placed(vs, voxel, fs[l])
    {
      AccumulatedAt(vs, voxel, fs[k], counts);
      out := out + [Tri(Mean(sums[fs[k].a], counts[fs[k].a]), Mean(sums[fs[k].b], counts[fs[k].b]),
                        Mean(sums[fs[k].c], counts[fs[k].c]))];
    }
  }

  lemma AccumulatedAt(vs: seq<Point>, voxel: real, f: CellFace, counts: map<Cell, nat>)
    requires voxel > 0.0 && Covers(vs, voxel, f)
    requires forall p :: p in vs ==> CellOf(p, voxel) in counts
    ensures f.a in counts && f.b in counts && f.c in counts
  {
    var i := Member(vs, voxel, f.a);
    var j := Member(vs, voxel, f.b);
    var k := Member(vs, voxel, f.c);
    assert vs[i] in vs && vs[j] in vs && vs[k] in vs;
  }

  lemma {:induction false} Member(vs: seq<Point>, voxel: real, cell: Cell) returns (i: nat)
    requires voxel > 0.0 && Count(vs, voxel, cell) > 0
    ensures i < |vs| && CellOf(vs[i], voxel) == cell
  {
    if CellOf(vs[|vs| - 1], voxel) == cell { return |vs| - 1; }
    i := Member(vs[..|vs| - 1], voxel, cell);
  }

  /** A bound every input vertex keeps along an axis, every output vertex keeps. */
  lemma StaysInBounds(tri: seq<Tri>, voxel: real, out: seq<Tri>, axis: Axis, lo: real, hi: real)
    requires IsDecimation(tri, voxel, out)
    requires forall i :: 0 <= i < |Vertices(tri)| ==> lo <= Coord(Vertices(tri)[i], axis) <= hi
    ensures forall k :: 0 <= k < |out| ==>
      && lo <= Coord(out[k].a, axis) <= hi
      && lo <= Coord(out[k].b, axis) <= hi
      && lo <= Coord(out[k].c, axis) <= hi
  {
    var vs := Vertices(tri);
    if voxel <= 0.0 {
      forall k | 0 <= k < |out| ensures lo <= Coord(out[k].a, axis) <= hi &&
        lo <= Coord(out[k].b, axis) <= hi && lo <= Coord(out[k].c, axis) <= hi {
        assert vs[3 * k] == out[k].a && vs[3 * k + 1] == out[k].b && vs[3 * k + 2] == out[k].c;
      }
    } else {
      var fs := Kept(CellFaces(tri, voxel));
      forall k | 0 <= k < |out| ensures lo <= Coord(out[k].a, axis) <= hi &&
        lo <= Coord(out[k].b, axis) <= hi && lo <= Coord(out[k].c, axis) <= hi {
        RepBetween(vs, voxel, fs[k].a, axis, lo, hi);
        RepBetween(vs, voxel, fs[k].b, axis, lo, hi);
        RepBetween(vs, voxel, fs[k].c, axis, lo, hi);
      }
    }
  }

  lemma PlacedInCells(vs: seq<Point>, voxel: real, f: CellFace)
    requires voxel > 0.0 && Covers(vs, voxel, f)
    ensures FaceOf(Placed(vs, voxel, f), voxel) == f
  {
    RepInCell(vs, voxel, f.a);
    RepInCell(vs, voxel, f.b);
    RepInCell(vs, voxel, f.c);
  }

  /** The cells of an output triangle are those of the face it stands for. */
  lemma FacesKept(tri: seq<Tri>, voxel: real, out: seq<Tri>)
    requires voxel > 0.0 && IsDecimation(tri, voxel, out)
    ensures CellFaces(out, voxel) == Kept(CellFaces(tri, voxel))
  {
    var vs, fs := Vertices(tri), Kept(CellFaces(tri, voxel));
    forall k | 0 <= k < |out| ensures FaceOf(out[k], voxel) == fs[k] { PlacedInCells(vs, voxel, fs[k]); }
  }

  /** Every output vertex in a cell is that cell's representative. */
  lemma OutputVertex(tri: seq<Tri>, voxel: real, out: seq<Tri>, v: nat, cell: Cell)
    requires voxel > 0.0 && IsDecimation(tri, voxel, out) && v < |Vertices(out)|
    requires Count(Vertices(tri), voxel, cell) > 0 && CellOf(Vertices(out)[v], voxel) == cell
    ensures Vertices(out)[v] == Rep(Vertices(tri), voxel, cell)
  {
    var t := v / 3;
    CornerOf(out, v);
    FacesKept(tri, voxel, out);
    assert FaceOf(out[t], voxel) == Kept(CellFaces(tri, voxel))[t];
  }

  lemma CornerOf(tri: seq<Tri>, v: nat)
    requires v < |Vertices(tri)|
    ensures var t := tri[v / 3]; Vertices(tri)[v] == if v % 3 == 0 then t.a else if v % 3 == 1 then t.b else t.c
  {
    var t := v / 3;
    assert v == 3 * t + v % 3;
  }

  lemma RepOfEqual(vs: seq<Point>, voxel: real, cell: Cell, p: Point)
    requires voxel > 0.0 && Count(vs, voxel, cell) > 0
    requires forall i :: 0 <= i < |vs| && CellOf(vs[i], voxel) == cell ==> vs[i] == p
    ensures Rep(vs, voxel, cell) == p
  {
    RepBetween(vs, voxel, cell, X, p.x, p.x);
    RepBetween(vs, voxel, cell, Y, p.y, p.y);
    RepBetween(vs, voxel, cell, Z, p.z, p.z);
  }

  lemma RepKept(tri: seq<Tri>, voxel: real, out: seq<Tri>, cell: Cell)
    requires voxel > 0.0 && IsDecimation(tri, voxel, out)
    requires Count(Vertices(tri), voxel, cell) > 0 && Count(Vertices(out), voxel, cell) > 0
    ensures Rep(Vertices(out), voxel, cell) == Rep(Vertices(tri), voxel, cell)
  {
    var ws, rep := Vertices(out), Rep(Vertices(tri), voxel, cell);
    forall v | 0 <= v < |ws| && CellOf(ws[v], voxel) == cell ensures ws[v] == rep {
      OutputVertex(tri, voxel, out, v, cell);
    }
    RepOfEqual(ws, voxel, cell, rep);
  }

  /** Decimating again at the same voxel changes nothing. */
  lemma Idempotent(tri: seq<Tri>, voxel: real, out: seq<Tri>, again: seq<Tri>)
    requires IsDecimation(tri, voxel, out) && IsDecimation(out, voxel, again)
    ensures again == out
  {
    if voxel > 0.0 {
      var fs := Kept(CellFaces(tri, voxel));
      FacesKept(tri, voxel, out);
      KeptExactly(CellFaces(tri, voxel));
      KeptIsFixed(fs);
      forall k | 0 <= k < |fs| ensures again[k] == out[k] {
        RepKept(tri, voxel, out, fs[k].a);
        RepKept(tri, voxel, out, fs[k].b);
        RepKept(tri, voxel, out, fs[k].c);
      }
    }
  }
}

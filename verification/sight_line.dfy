/** The camera's line of sight past the resting arm: a slab test against the boxes around its links. */
module SightLines {

  type Vec = v: seq<real> | |v| == 3 witness [0.0, 0.0, 0.0]

  datatype Box = Box(lo: Vec, hi: Vec)

  /** The rotation rows and the translation of a link frame; only their being numbers is used. */
  datatype Frame = Frame(x: Vec, y: Vec, z: Vec, shift: Vec)

  // ---- the slab test -------------------------------------------------------------------------------

  /** Components this small are taken as zero. */
  const FLAT := 0.000000000001

  predicate Flat(d: real) { -FLAT < d < FLAT }

  /** `t` is between the two planes of a slab; a flat segment is there always or never. */
  predicate InSlab(p: real, d: real, lo: real, hi: real, t: real) {
    if Flat(d) then lo <= p <= hi else lo <= p + t * d <= hi || hi <= p + t * d <= lo
  }

  ghost predicate MeetsAt(p0: Vec, p1: Vec, lo: Vec, hi: Vec, axes: nat, t: real)
    requires axes <= 3
  {
    0.0 <= t <= 1.0 && forall i :: 0 <= i < axes ==> InSlab(p0[i], p1[i] - p0[i], lo[i], hi[i], t)
  }

  lemma SlabInterval(p: real, d: real, lo: real, hi: real, t: real)
    requires !Flat(d)
    ensures var a, b := (lo - p) / d, (hi - p) / d;
      InSlab(p, d, lo, hi, t) <==> a <= t <= b || b <= t <= a
  {
    var a, b := (lo - p) / d, (hi - p) / d;
    assert a * d == lo - p && b * d == hi - p;
    Ordered(a, t, d);
    Ordered(t, b, d);
    Ordered(b, t, d);
    Ordered(t, a, d);
  }

  lemma Ordered(x: real, y: real, d: real)
    requires d != 0.0
    ensures x <= y <==> if d > 0.0 then x * d <= y * d else y * d <= x * d
  {
    assert y * d - x * d == (y - x) * d;
    if d > 0.0 && x > y { assert (x - y) * d > 0.0; }
    if d < 0.0 && x > y { assert (x - y) * -d > 0.0; }
  }

  lemma MeetsNext(p0: Vec, p1: Vec, lo: Vec, hi: Vec, axes: nat, t: real)
    requires axes < 3
    ensures MeetsAt(p0, p1, lo, hi, axes + 1, t) <==>
      MeetsAt(p0, p1, lo, hi, axes, t) && InSlab(p0[axes], p1[axes] - p0[axes], lo[axes], hi[axes], t)
    ensures !MeetsAt(p0, p1, lo, hi, axes + 1, t) ==> !MeetsAt(p0, p1, lo, hi, 3, t)
  {
  }

  method SegHitsAabb(p0: Vec, p1: Vec, lo: Vec, hi: Vec) returns (hit: bool)
    ensures hit <==> exists t :: MeetsAt(p0, p1, lo, hi, 3, t)
  {
    var t0, t1 := 0.0, 1.0;
    for i := 0 to 3
      invariant t0 <= t1
      invariant forall t :: MeetsAt(p0, p1, lo, hi, i, t) <==> t0 <= t <= t1
    {
      var d := p1[i] - p0[i];
      ghost var next := i + 1;
      if -FLAT < d < FLAT {
        if p0[i] < lo[i] || p0[i] > hi[i] {
          forall t ensures !MeetsAt(p0, p1, lo, hi, 3, t) { MeetsNext(p0, p1, lo, hi, i, t); }
          return false;
        }
        forall t ensures MeetsAt(p0, p1, lo, hi, next, t) <==> t0 <= t <= t1 { MeetsNext(p0, p1, lo, hi, i, t); }
      } else {
        var a, b := (lo[i] - p0[i]) / d, (hi[i] - p0[i]) / d;
        if a > b { a, b := b, a; }
        t0, t1 := if a > t0 then a else t0, if b < t1 then b else t1;
        forall t ensures MeetsAt(p0, p1, lo, hi, next, t) <==> t0 <= t <= t1 {
          SlabInterval(p0[i], d, lo[i], hi[i], t);
          MeetsNext(p0, p1, lo, hi, i, t);
        }
        if t0 > t1 {
          forall t ensures !MeetsAt(p0, p1, lo, hi, 3, t) { MeetsNext(p0, p1, lo, hi, i, t); }
          return false;
        }
      }
    }
    assert MeetsAt(p0, p1, lo, hi, 3, t0);
    return true;
  }

  // ---- what it says about the segment ----------------------------------------------------------------

  /** The point a fraction `t` of the way from `p0` to `p1`. */
  function Along(p0: Vec, p1: Vec, t: real): Vec {
    [p0[0] + t * (p1[0] - p0[0]), p0[1] + t * (p1[1] - p0[1]), p0[2] + t * (p1[2] - p0[2])]
  }

  predicate Contains(box: Box, p: Vec) {
    && box.lo[0] <= p[0] <= box.hi[0]
    && box.lo[1] <= p[1] <= box.hi[1]
    && box.lo[2] <= p[2] <= box.hi[2]
  }

  predicate Proper(box: Box) {
    box.lo[0] <= box.hi[0] && box.lo[1] <= box.hi[1] && box.lo[2] <= box.hi[2]
  }

  ghost predicate InBoxAt(p0: Vec, p1: Vec, box: Box, t: real) {
    0.0 <= t <= 1.0 && Contains(box, Along(p0, p1, t))
  }

  ghost predicate Crosses(p0: Vec, p1: Vec, box: Box) { exists t :: InBoxAt(p0, p1, box, t) }

  ghost predicate Reported(p0: Vec, p1: Vec, box: Box) { exists t :: MeetsAt(p0, p1, box.lo, box.hi, 3, t) }

  /** A component the test rounds down to zero. */
  predicate Rounded(d: real) { Flat(d) && d != 0.0 }

  predicate NoneRounded(p0: Vec, p1: Vec) {
    !Rounded(p1[0] - p0[0]) && !Rounded(p1[1] - p0[1]) && !Rounded(p1[2] - p0[2])
  }

  lemma SlabIsRange(p: real, d: real, lo: real, hi: real, t: real)
    requires lo <= hi && !Rounded(d)
    ensures InSlab(p, d, lo, hi, t) <==> lo <= p + t * d <= hi
  {
  }

  lemma MeetsThree(p0: Vec, p1: Vec, lo: Vec, hi: Vec, t: real)
    ensures MeetsAt(p0, p1, lo, hi, 3, t) <==>
      && 0.0 <= t <= 1.0
      && InSlab(p0[0], p1[0] - p0[0], lo[0], hi[0], t)
      && InSlab(p0[1], p1[1] - p0[1], lo[1], hi[1], t)
      && InSlab(p0[2], p1[2] - p0[2], lo[2], hi[2], t)
  {
    MeetsNext(p0, p1, lo, hi, 0, t);
    MeetsNext(p0, p1, lo, hi, 1, t);
    MeetsNext(p0, p1, lo, hi, 2, t);
  }

  lemma MeetsIsInBox(p0: Vec, p1: Vec, box: Box, t: real)
    requires Proper(box) && NoneRounded(p0, p1)
    ensures MeetsAt(p0, p1, box.lo, box.hi, 3, t) <==> InBoxAt(p0, p1, box, t)
  {
    MeetsThree(p0, p1, box.lo, box.hi, t);
    var x, y, z := p1[0] - p0[0], p1[1] - p0[1], p1[2] - p0[2];
    SlabIsRange(p0[0], x, box.lo[0], box.hi[0], t);
    SlabIsRange(p0[1], y, box.lo[1], box.hi[1], t);
    SlabIsRange(p0[2], z, box.lo[2], box.hi[2], t);
    var q := Along(p0, p1, t);
    assert q[0] == p0[0] + t * x && q[1] == p0[1] + t * y && q[2] == p0[2] + t * z;
  }

  lemma ReportedIsCrossing(p0: Vec, p1: Vec, box: Box)
    requires Proper(box) && NoneRounded(p0, p1)
    ensures Reported(p0, p1, box) <==> Crosses(p0, p1, box)
  {
    forall t ensures MeetsAt(p0, p1, box.lo, box.hi, 3, t) <==> InBoxAt(p0, p1, box, t) {
      MeetsIsInBox(p0, p1, box, t);
    }
  }

  ghost predicate ExactForEveryBox(p0: Vec, p1: Vec) {
    forall box: Box :: Proper(box) ==> (Reported(p0, p1, box) <==> Crosses(p0, p1, box))
  }

  /**
    * A segment is told right from wrong on every box exactly when none of its components is rounded to
    * zero. A rounded one fails on the box that is just the segment's far end.
    */
  lemma ExactIffNoneRounded(p0: Vec, p1: Vec)
    ensures ExactForEveryBox(p0, p1) <==> NoneRounded(p0, p1)
  {
    if NoneRounded(p0, p1) {
      forall box: Box | Proper(box) ensures Reported(p0, p1, box) <==> Crosses(p0, p1, box) {
        ReportedIsCrossing(p0, p1, box);
      }
    } else {
      var box := Box(p1, p1);
      assert Along(p0, p1, 1.0) == p1;
      assert InBoxAt(p0, p1, box, 1.0);
      var i := if Rounded(p1[0] - p0[0]) then 0 else if Rounded(p1[1] - p0[1]) then 1 else 2;
      var d := p1[i] - p0[i];
      assert forall t :: !InSlab(p0[i], d, p1[i], p1[i], t);
      assert !Reported(p0, p1, box);
    }
  }

  // ---- the box around a link -------------------------------------------------------------------------

  function Dot(r: Vec, p: Vec): real { r[0] * p[0] + r[1] * p[1] + r[2] * p[2] }

  function Image(f: Frame, p: Vec): Vec {
    [Dot(f.x, p) + f.shift[0], Dot(f.y, p) + f.shift[1], Dot(f.z, p) + f.shift[2]]
  }

  function Corners(b: Box): (cs: seq<Vec>)
    ensures |cs| == 8
  {
    [[b.lo[0], b.lo[1], b.lo[2]], [b.lo[0], b.lo[1], b.hi[2]], [b.lo[0], b.hi[1], b.lo[2]], [b.lo[0], b.hi[1], b.hi[2]],
     [b.hi[0], b.lo[1], b.lo[2]], [b.hi[0], b.lo[1], b.hi[2]], [b.hi[0], b.hi[1], b.lo[2]], [b.hi[0], b.hi[1], b.hi[2]]]
  }

  function Min(xs: seq<real>): (m: real)
    requires xs != []
    ensures m in xs && forall i :: 0 <= i < |xs| ==> m <= xs[i]
  {
    if |xs| == 1 then xs[0] else
      var m := Min(xs[..|xs| - 1]); if m <= xs[|xs| - 1] then m else xs[|xs| - 1]
  }

  function Max(xs: seq<real>): (m: real)
    requires xs != []
    ensures m in xs && forall i :: 0 <= i < |xs| ==> xs[i] <= m
  {
    if |xs| == 1 then xs[0] else
      var m := Max(xs[..|xs| - 1]); if m >= xs[|xs| - 1] then m else xs[|xs| - 1]
  }

  /** One coordinate of the mapped corners. */
  function CornerValues(r: Vec, shift: real, b: Box): (xs: seq<real>)
    ensures |xs| == 8
    ensures forall k :: 0 <= k < 8 ==> xs[k] == Dot(r, Corners(b)[k]) + shift
  {
    seq(8, k requires 0 <= k < 8 => Dot(r, Corners(b)[k]) + shift)
  }

  /** `(w.min(0), w.max(0))`. */
  function HomeBox(f: Frame, b: Box): Box {
    var xs, ys := CornerValues(f.x, f.shift[0], b), CornerValues(f.y, f.shift[1], b);
    var zs := CornerValues(f.z, f.shift[2], b);
    Box([Min(xs), Min(ys), Min(zs)], [Max(xs), Max(ys), Max(zs)])
  }

  lemma Monotone(r: real, lo: real, x: real, hi: real)
    requires lo <= x <= hi
    ensures r >= 0.0 ==> r * lo <= r * x <= r * hi
    ensures r < 0.0 ==> r * hi <= r * x <= r * lo
  {
    if r >= 0.0 {
      ProductOrdered(r, lo, x);
      ProductOrdered(r, x, hi);
    } else {
      ProductOrdered(-r, lo, x);
      ProductOrdered(-r, x, hi);
      assert -r * lo == -(r * lo) && -r * x == -(r * x) && -r * hi == -(r * hi);
    }
  }

  lemma ProductOrdered(r: real, a: real, b: real)
    requires r >= 0.0 && a <= b
    ensures r * a <= r * b
  {
    var d := b - a;
    assert r * b == r * a + r * d;
    ProductOfNonNegatives(r, d);
  }

  lemma ProductOfNonNegatives(r: real, d: real)
    requires r >= 0.0 && d >= 0.0
    ensures r * d >= 0.0
  {
  }

  /** The corner a row is smallest at, and the one it is largest at. */
  function Extreme(r: Vec, smallest: bool): nat {
    (if (r[0] >= 0.0) == smallest then 0 else 4)
    + (if (r[1] >= 0.0) == smallest then 0 else 2)
    + (if (r[2] >= 0.0) == smallest then 0 else 1)
  }

  function ExtremeCorner(r: Vec, b: Box, smallest: bool): Vec {
    [if (r[0] >= 0.0) == smallest then b.lo[0] else b.hi[0],
     if (r[1] >= 0.0) == smallest then b.lo[1] else b.hi[1],
     if (r[2] >= 0.0) == smallest then b.lo[2] else b.hi[2]]
  }

  lemma DotOrdered(r: Vec, p: Vec, q: Vec)
    requires r[0] * p[0] <= r[0] * q[0] && r[1] * p[1] <= r[1] * q[1] && r[2] * p[2] <= r[2] * q[2]
    ensures Dot(r, p) <= Dot(r, q)
  {
  }

  lemma RowBounds(r: Vec, b: Box, p: Vec)
    requires Contains(b, p)
    ensures Dot(r, ExtremeCorner(r, b, true)) <= Dot(r, p) <= Dot(r, ExtremeCorner(r, b, false))
  {
    var l, h := ExtremeCorner(r, b, true), ExtremeCorner(r, b, false);
    forall i | 0 <= i < 3 ensures r[i] * l[i] <= r[i] * p[i] <= r[i] * h[i] {
      Monotone(r[i], b.lo[i], p[i], b.hi[i]);
    }
    DotOrdered(r, l, p);
    DotOrdered(r, p, h);
  }

  lemma ExtremeIsCorner(r: Vec, b: Box, smallest: bool)
    ensures 0 <= Extreme(r, smallest) < 8 && Corners(b)[Extreme(r, smallest)] == ExtremeCorner(r, b, smallest)
  {
  }

  lemma ValueBetween(r: Vec, shift: real, b: Box, p: Vec)
    requires Contains(b, p)
    ensures Min(CornerValues(r, shift, b)) <= Dot(r, p) + shift <= Max(CornerValues(r, shift, b))
  {
    var xs := CornerValues(r, shift, b);
    RowBounds(r, b, p);
    ExtremeIsCorner(r, b, true);
    ExtremeIsCorner(r, b, false);
    var low, high := Dot(r, ExtremeCorner(r, b, true)), Dot(r, ExtremeCorner(r, b, false));
    assert xs[Extreme(r, true)] == low + shift && xs[Extreme(r, false)] == high + shift;
  }

  /** The box of the eight mapped corners holds the image of the whole link box. */
  lemma HomeBoxHoldsImage(f: Frame, b: Box, p: Vec)
    requires Contains(b, p)
    ensures Contains(HomeBox(f, b), Image(f, p)) && Proper(HomeBox(f, b))
  {
    ValueBetween(f.x, f.shift[0], b, p);
    ValueBetween(f.y, f.shift[1], b, p);
    ValueBetween(f.z, f.shift[2], b, p);
  }

  /** And no smaller box does: one that holds the mapped corners contains it. */
  lemma HomeBoxIsLeast(f: Frame, b: Box, c: Box, p: Vec)
    requires forall k :: 0 <= k < 8 ==> Contains(c, Image(f, Corners(b)[k]))
    requires Contains(HomeBox(f, b), p)
    ensures Contains(c, p)
  {
    var xs, ys := CornerValues(f.x, f.shift[0], b), CornerValues(f.y, f.shift[1], b);
    var zs := CornerValues(f.z, f.shift[2], b);
    forall k | 0 <= k < 8
      ensures c.lo[0] <= xs[k] <= c.hi[0] && c.lo[1] <= ys[k] <= c.hi[1] && c.lo[2] <= zs[k] <= c.hi[2]
    {
      assert Contains(c, Image(f, Corners(b)[k]));
    }
  }

  // ---- the mask ----------------------------------------------------------------------------------------

  /** `[... for T, (lo, hi) in zip(frames, boxes)]`. */
  function HomeBoxes(frames: seq<Frame>, boxes: seq<Box>): (hs: seq<Box>)
    ensures |hs| == (if |frames| < |boxes| then |frames| else |boxes|)
    ensures forall k :: 0 <= k < |hs| ==> hs[k] == HomeBox(frames[k], boxes[k])
  {
    var n := if |frames| < |boxes| then |frames| else |boxes|;
    seq(n, k requires 0 <= k < n => HomeBox(frames[k], boxes[k]))
  }

  /** The sight segment stops just short of the cell, so that the cell's own surface does not count. */
  function SightEnd(camera: Vec, p: Vec): Vec {
    [camera[0] + (p[0] - camera[0]) * 0.995,
     camera[1] + (p[1] - camera[1]) * 0.995,
     camera[2] + (p[2] - camera[2]) * 0.995]
  }

  ghost predicate Blocked(camera: Vec, p: Vec, homes: seq<Box>) {
    exists k :: 0 <= k < |homes| && Reported(camera, SightEnd(camera, p), homes[k])
  }

  method AnyHit(camera: Vec, p: Vec, homes: seq<Box>) returns (hit: bool)
    ensures hit <==> Blocked(camera, p, homes)
  {
    var k := 0;
    while k < |homes|
      invariant 0 <= k <= |homes|
      invariant forall l :: 0 <= l < k ==> !Reported(camera, SightEnd(camera, p), homes[l])
    {
      var h := SegHitsAabb(camera, SightEnd(camera, p), homes[k].lo, homes[k].hi);
      if h { return true; }
      k := k + 1;
    }
    return false;
  }

  method ClearOccluded(camera: Vec, cells: seq<Vec>, cand: array<bool>, homes: seq<Box>) returns (mask: array<bool>)
    requires |cells| == cand.Length
    ensures fresh(mask) && mask.Length == cand.Length
    ensures forall i :: 0 <= i < mask.Length ==> (mask[i] <==> cand[i] && !Blocked(camera, cells[i], homes))
  {
    mask := new bool[cand.Length](i requires 0 <= i < cand.Length reads cand => cand[i]);
    for i := 0 to cand.Length
      invariant forall j :: 0 <= j < i ==> (mask[j] <==> cand[j] && !Blocked(camera, cells[j], homes))
      invariant forall j :: i <= j < mask.Length ==> mask[j] == cand[j]
    {
      if cand[i] {
        var hit := AnyHit(camera, cells[i], homes);
        if hit { mask[i] := false; }
      }
    }
  }

  /** No point of any link's box stands on the sight segment of a cell that was kept. */
  lemma KeptCellsAreSeen(camera: Vec, cell: Vec, frames: seq<Frame>, boxes: seq<Box>, k: nat, p: Vec, t: real)
    requires !Blocked(camera, cell, HomeBoxes(frames, boxes)) && NoneRounded(camera, SightEnd(camera, cell))
    requires k < |frames| && k < |boxes| && Contains(boxes[k], p) && 0.0 <= t <= 1.0
    ensures Image(frames[k], p) != Along(camera, SightEnd(camera, cell), t)
  {
    var home := HomeBoxes(frames, boxes)[k];
    HomeBoxHoldsImage(frames[k], boxes[k], p);
    if Image(frames[k], p) == Along(camera, SightEnd(camera, cell), t) {
      assert InBoxAt(camera, SightEnd(camera, cell), home, t);
      ReportedIsCrossing(camera, SightEnd(camera, cell), home);
      assert false;
    }
  }
}

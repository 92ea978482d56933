/** Lists searched and filtered by a predicate. */
module Selection {

  import opened Common

  /** The first element that is hit. */
  function Find<T>(xs: seq<T>, hit: T -> bool): Option<T> {
    if xs == [] then None else if hit(xs[0]) then Some(xs[0]) else Find(xs[1..], hit)
  }

  /** The elements that are not hit. */
  function Without<T>(xs: seq<T>, hit: T -> bool): seq<T> {
    if xs == [] then []
    else if hit(xs[0]) then Without(xs[1..], hit)
    else [xs[0]] + Without(xs[1..], hit)
  }

  /** How many elements are hit. */
  function Count<T>(xs: seq<T>, hit: T -> bool): nat {
    if xs == [] then 0 else (if hit(xs[0]) then 1 else 0) + Count(xs[1..], hit)
  }

  /** `x` in the place of the first hit, or at the end; the later hits gone. */
  function Put<T>(xs: seq<T>, hit: T -> bool, x: T): seq<T> {
    if xs == [] then [x]
    else if hit(xs[0]) then [x] + Without(xs[1..], hit)
    else [xs[0]] + Put(xs[1..], hit, x)
  }

  ghost predicate NoneHit<T>(xs: seq<T>, hit: T -> bool) { forall i :: 0 <= i < |xs| ==> !hit(xs[i]) }

  lemma FindHead<T>(x: T, rest: seq<T>, hit: T -> bool)
    ensures Find([x] + rest, hit) == if hit(x) then Some(x) else Find(rest, hit)
  {
    assert ([x] + rest)[1..] == rest;
  }

  lemma {:induction false} FindNone<T>(xs: seq<T>, hit: T -> bool)
    ensures Find(xs, hit).None? <==> NoneHit(xs, hit)
  {
    if xs != [] {
      FindNone(xs[1..], hit);
      assert forall i :: 0 < i < |xs| ==> xs[i] == xs[1..][i - 1];
    }
  }

  lemma {:induction false} FindHits<T>(xs: seq<T>, hit: T -> bool)
    requires Find(xs, hit).Some?
    ensures hit(Find(xs, hit).value) && Find(xs, hit).value in xs
  {
    if !hit(xs[0]) { FindHits(xs[1..], hit); }
  }

  lemma {:induction false} FindAppend<T>(a: seq<T>, b: seq<T>, hit: T -> bool)
    ensures Find(a + b, hit) == if Find(a, hit).Some? then Find(a, hit) else Find(b, hit)
  {
    if a == [] {
      assert a + b == b;
    } else {
      assert (a + b)[1..] == a[1..] + b;
      FindAppend(a[1..], b, hit);
    }
  }

  lemma {:induction false} WithoutAppend<T>(a: seq<T>, b: seq<T>, hit: T -> bool)
    ensures Without(a + b, hit) == Without(a, hit) + Without(b, hit)
    ensures Count(a + b, hit) == Count(a, hit) + Count(b, hit)
  {
    if a == [] {
      assert a + b == b;
    } else {
      assert (a + b)[1..] == a[1..] + b;
      WithoutAppend(a[1..], b, hit);
    }
  }

  lemma {:induction false} WithoutNone<T>(xs: seq<T>, hit: T -> bool)
    ensures NoneHit(Without(xs, hit), hit)
    ensures forall x :: x in Without(xs, hit) <==> x in xs && !hit(x)
  {
    if xs != [] { WithoutNone(xs[1..], hit); }
  }

  lemma {:induction false} WithoutTwice<T>(xs: seq<T>, hit: T -> bool)
    ensures Without(Without(xs, hit), hit) == Without(xs, hit)
    ensures Count(Without(xs, hit), hit) == 0
  {
    if xs != [] { WithoutTwice(xs[1..], hit); }
  }

  ghost predicate Disjoint<T(!new)>(hit: T -> bool, other: T -> bool) { forall x :: !(hit(x) && other(x)) }

  /** Removing what one predicate hits does not change what a disjoint one finds. */
  lemma {:induction false} FindWithout<T(!new)>(xs: seq<T>, hit: T -> bool, other: T -> bool)
    requires Disjoint(hit, other)
    ensures Find(Without(xs, hit), other) == Find(xs, other)
  {
    if xs != [] {
      FindWithout(xs[1..], hit, other);
      assert !(hit(xs[0]) && other(xs[0]));
    }
  }

  /** Putting an element leaves the others, in their order, and makes it the only one hit. */
  lemma {:induction false} PutOne<T>(xs: seq<T>, hit: T -> bool, x: T)
    requires hit(x)
    ensures Without(Put(xs, hit, x), hit) == Without(xs, hit)
    ensures Count(Put(xs, hit, x), hit) == 1
    ensures Find(Put(xs, hit, x), hit) == Some(x)
  {
    if xs != [] {
      if hit(xs[0]) { WithoutTwice(xs[1..], hit); } else { PutOne(xs[1..], hit, x); }
    }
  }

  ghost predicate All<T>(xs: seq<T>, good: T -> bool) { forall i :: 0 <= i < |xs| ==> good(xs[i]) }

  lemma {:induction false} WithoutKeeps<T>(xs: seq<T>, hit: T -> bool, good: T -> bool)
    requires All(xs, good)
    ensures All(Without(xs, hit), good)
  {
    if xs != [] { WithoutKeeps(xs[1..], hit, good); }
  }

  lemma {:induction false} PutKeeps<T>(xs: seq<T>, hit: T -> bool, x: T, good: T -> bool)
    requires All(xs, good) && good(x)
    ensures All(Put(xs, hit, x), good)
  {
    if xs != [] {
      WithoutKeeps(xs[1..], hit, good);
      PutKeeps(xs[1..], hit, x, good);
    }
  }

  /** The first hit gives its place to `x`; nothing before it changes. */
  lemma {:induction false} PutInPlace<T>(a: seq<T>, former: T, b: seq<T>, hit: T -> bool, x: T)
    requires NoneHit(a, hit) && hit(former)
    ensures Put(a + [former] + b, hit, x) == a + [x] + Without(b, hit)
  {
    var xs := a + [former] + b;
    if a == [] {
      assert xs[1..] == b;
    } else {
      assert xs[1..] == a[1..] + [former] + b;
      assert xs[0] == a[0];
      PutInPlace(a[1..], former, b, hit, x);
    }
  }

  /** Without a hit `x` stands last. */
  lemma {:induction false} PutAtEnd<T>(xs: seq<T>, hit: T -> bool, x: T)
    requires NoneHit(xs, hit)
    ensures Put(xs, hit, x) == xs + [x]
  {
    if xs != [] { PutAtEnd(xs[1..], hit, x); }
  }
}

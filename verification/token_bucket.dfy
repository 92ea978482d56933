/** The per-session rate limiter: `rate` tokens per second, at most `burst`. */
module TokenBuckets {

  class TokenBucket {
    const rate: real
    const burst: real
    var tokens: real
    var t: real

    constructor (rate: real, burst: real, now: real)
      ensures this.rate == rate && this.burst == burst && tokens == burst && t == now
    {
      this.rate := rate;
      this.burst := burst;
      tokens := burst;
      t := now;
    }

    method Take(now: real) returns (taken: bool)
      modifies this
      ensures t == now
      ensures taken == (Refill(burst, old(tokens), Gain(rate, old(t), now)) >= 1.0)
      ensures tokens == Refill(burst, old(tokens), Gain(rate, old(t), now)) - Cost(taken)
    {
      var elapsed := if now - t > 0.0 then now - t else 0.0;
      tokens := if tokens + elapsed * rate < burst then tokens + elapsed * rate else burst;
      t := now;
      if tokens >= 1.0 {
        tokens := tokens - 1.0;
        return true;
      }
      return false;
    }
  }

  function Gain(rate: real, t: real, now: real): real {
    (if now - t > 0.0 then now - t else 0.0) * rate
  }

  function Refill(burst: real, tokens: real, gain: real): real {
    if tokens + gain < burst then tokens + gain else burst
  }

  function Cost(taken: bool): real { if taken then 1.0 else 0.0 }

  // ---- the bucket's life, measured in tokens earned ----------------------------------------------
  // A call at time x happens at `rate * x`; the clock must not run backwards.

  /** The bucket after calls at `es`. */
  function Tokens(burst: real, es: seq<real>): real
    decreases |es|, 2
  {
    if es == [] then burst else Before(burst, es) - Cost(Taken(burst, es))
  }

  /** What the last call of `es` finds; the first finds the bucket as it was made, full. */
  function Before(burst: real, es: seq<real>): real
    requires es != []
    decreases |es|, 0
  {
    var n := |es| - 1;
    if n == 0 then burst else Refill(burst, Tokens(burst, es[..n]), es[n] - es[n - 1])
  }

  predicate Taken(burst: real, es: seq<real>)
    requires es != []
    decreases |es|, 1
  {
    Before(burst, es) >= 1.0
  }

  /** How many of the calls from number `i` on succeed. */
  function Successes(burst: real, es: seq<real>, i: nat): nat
    requires i <= |es|
    decreases |es|
  {
    if |es| == i then 0
    else Successes(burst, es[..|es| - 1], i) + if Taken(burst, es) then 1 else 0
  }

  ghost predicate Nondecreasing(es: seq<real>) {
    forall i, j :: 0 <= i < j < |es| ==> es[i] <= es[j]
  }

  /** The bucket is never overdrawn and never overfull. */
  lemma {:induction false} TokensInRange(burst: real, es: seq<real>)
    requires burst >= 0.0 && Nondecreasing(es)
    ensures 0.0 <= Tokens(burst, es) <= burst
    decreases |es|
  {
    if es != [] { TokensInRange(burst, es[..|es| - 1]); }
  }

  // ---- the least allowance -----------------------------------------------------------------------

  function Shift(xs: seq<real>, step: real): (r: seq<real>)
    ensures |r| == |xs| && forall i :: 0 <= i < |r| ==> r[i] == xs[i] + step
  {
    if xs == [] then [] else [xs[0] + step] + Shift(xs[1..], step)
  }

  ghost predicate Least(x: real, xs: seq<real>) {
    (forall i :: 0 <= i < |xs| ==> x <= xs[i]) && x in xs
  }

  lemma LeastShifted(x: real, xs: seq<real>, step: real, burst: real)
    requires Least(x, xs)
    ensures Least(if x + step < burst then x + step else burst, Shift(xs, step) + [burst])
  {
    var i :| 0 <= i < |xs| && x == xs[i];
    var ys := Shift(xs, step) + [burst];
    assert ys[i] == x + step && ys[|xs|] == burst;
  }

  /** What each window that ends with the last call, the one call `i` opens, allowed before that call. */
  function Allowances(burst: real, es: seq<real>): (r: seq<real>)
    requires es != []
    ensures |r| == |es|
    decreases |es|
  {
    var n := |es| - 1;
    if n == 0 then [burst]
    else Shift(Allowances(burst, es[..n]), es[n] - es[n - 1] - Cost(Taken(burst, es[..n]))) + [burst]
  }

  lemma {:induction false} AllowancesAre(burst: real, es: seq<real>, i: nat)
    requires i < |es|
    ensures Allowances(burst, es)[i]
      == burst + (es[|es| - 1] - es[i]) - Successes(burst, es[..|es| - 1], i) as real
    decreases |es|
  {
    var n := |es| - 1;
    if i < n {
      AllowancesAre(burst, es[..n], i);
      assert es[..n][..n - 1] == es[..n - 1];
    } else {
      assert Successes(burst, es[..n], n) == 0;
    }
  }

  /** The call finds in the bucket exactly the least of the allowances of all windows ending with it. */
  lemma {:induction false} BeforeIsLeast(burst: real, es: seq<real>)
    requires es != []
    ensures Least(Before(burst, es), Allowances(burst, es))
    decreases |es|
  {
    var n := |es| - 1;
    if n > 0 {
      BeforeIsLeast(burst, es[..n]);
      LeastShifted(Before(burst, es[..n]), Allowances(burst, es[..n]),
                   es[n] - es[n - 1] - Cost(Taken(burst, es[..n])), burst);
    }
  }

  // ---- the two results, in seconds ---------------------------------------------------------------

  /** What a window of `width` seconds may admit. */
  function Limit(rate: real, burst: real, width: real): real { burst + rate * width }

  function Earned(rate: real, times: seq<real>): (r: seq<real>)
    ensures |r| == |times|
  {
    if times == [] then [] else Earned(rate, times[..|times| - 1]) + [rate * times[|times| - 1]]
  }

  lemma {:induction false} EarnedAt(rate: real, times: seq<real>, i: nat)
    requires i < |times|
    ensures Earned(rate, times)[i] == rate * times[i]
    decreases |times|
  {
    if i < |times| - 1 { EarnedAt(rate, times[..|times| - 1], i); }
  }

  lemma EarnedBetween(rate: real, times: seq<real>, i: nat, j: nat)
    requires i < |times| && j < |times|
    ensures Earned(rate, times)[j] - Earned(rate, times)[i] == rate * (times[j] - times[i])
  {
    EarnedAt(rate, times, i);
    EarnedAt(rate, times, j);
  }

  lemma EarnedInOrder(rate: real, times: seq<real>)
    requires rate >= 0.0 && Nondecreasing(times)
    ensures Nondecreasing(Earned(rate, times))
  {
    var es := Earned(rate, times);
    forall i, j | 0 <= i < j < |es| ensures es[i] <= es[j] {
      EarnedBetween(rate, times, i, j);
      ProductNonnegative(rate, times[j] - times[i]);
    }
  }

  lemma ProductNonnegative(x: real, y: real)
    requires x >= 0.0 && y >= 0.0
    ensures x * y >= 0.0
  {
  }

  lemma ProductMonotone(rate: real, x: real, y: real)
    requires rate >= 0.0 && x <= y
    ensures rate * x <= rate * y
  {
    ProductNonnegative(rate, y - x);
    assert rate * y - rate * x == rate * (y - x);
  }

  /** Some window that ends with the last call has no room for it. */
  ghost predicate NoRoom(burst: real, es: seq<real>, i: nat)
    requires i < |es|
  {
    Successes(burst, es[..|es| - 1], i) as real + 1.0 > burst + (es[|es| - 1] - es[i])
  }

  lemma RefusedIff(burst: real, es: seq<real>)
    requires es != []
    ensures !Taken(burst, es) <==> exists i :: 0 <= i < |es| && NoRoom(burst, es, i)
  {
    BeforeIsLeast(burst, es);
    var allowed := Allowances(burst, es);
    if Taken(burst, es) {
      forall i | 0 <= i < |es| ensures !NoRoom(burst, es, i) {
        AllowancesAre(burst, es, i);
        assert allowed[i] >= 1.0;
      }
    } else {
      var i :| 0 <= i < |allowed| && allowed[i] == Before(burst, es);
      AllowancesAre(burst, es, i);
      assert NoRoom(burst, es, i);
    }
  }

  /** The successes since call `i`, with the last call added, fit its window. */
  ghost predicate Fits(rate: real, burst: real, times: seq<real>, i: nat)
    requires i < |times|
  {
    var n := |times| - 1;
    Successes(burst, Earned(rate, times)[..n], i) as real + 1.0 <= Limit(rate, burst, times[n] - times[i])
  }

  lemma FitsIff(rate: real, burst: real, times: seq<real>, i: nat)
    requires i < |times|
    ensures Fits(rate, burst, times, i) <==> !NoRoom(burst, Earned(rate, times), i)
  {
    var es, n := Earned(rate, times), |times| - 1;
    EarnedBetween(rate, times, i, n);
    assert Limit(rate, burst, times[n] - times[i]) == burst + (es[n] - es[i]);
  }

  /** `take()` refuses a call exactly when serving it would put some window that ends with it above
      burst + rate * length: the limiter is both safe and never stricter than it has to be. */
  lemma TakenIff(rate: real, burst: real, times: seq<real>)
    requires times != []
    ensures Taken(burst, Earned(rate, times)) <==> forall i :: 0 <= i < |times| ==> Fits(rate, burst, times, i)
  {
    RefusedIff(burst, Earned(rate, times));
    forall i | 0 <= i < |times| ensures Fits(rate, burst, times, i) == !NoRoom(burst, Earned(rate, times), i) {
      FitsIff(rate, burst, times, i);
    }
  }

  /** From any call to the last, both included. */
  lemma SpanBound(burst: real, es: seq<real>, i: nat)
    requires burst >= 0.0 && Nondecreasing(es) && i < |es|
    ensures Successes(burst, es, i) as real <= burst + (es[|es| - 1] - es[i])
  {
    var n := |es| - 1;
    TokensInRange(burst, es);
    BeforeIsLeast(burst, es);
    AllowancesAre(burst, es, i);
    assert Before(burst, es) <= Allowances(burst, es)[i];
    assert Successes(burst, es, i) as real == Successes(burst, es[..n], i) as real + Cost(Taken(burst, es));
  }

  /** The successful calls whose time stamp lies in [a, b]. */
  function SuccessesWithin(rate: real, burst: real, times: seq<real>, a: real, b: real): nat
    decreases |times|
  {
    if times == [] then 0 else
      var n := |times| - 1;
      SuccessesWithin(rate, burst, times[..n], a, b)
        + if a <= times[n] <= b && Taken(burst, Earned(rate, times)) then 1 else 0
  }

  lemma {:induction false} WithinIsSpan(rate: real, burst: real, times: seq<real>, a: real, b: real, i: nat)
    requires i <= |times|
    requires forall k :: 0 <= k < i ==> times[k] < a
    requires forall k :: i <= k < |times| ==> a <= times[k] <= b
    ensures SuccessesWithin(rate, burst, times, a, b) == Successes(burst, Earned(rate, times), i)
    decreases |times|
  {
    if times != [] {
      var n := |times| - 1;
      assert Earned(rate, times)[..n] == Earned(rate, times[..n]);
      WithinIsSpan(rate, burst, times[..n], a, b, if i <= n then i else n);
    }
  }

  function FirstFrom(times: seq<real>, a: real): (i: nat)
    ensures i <= |times| && (forall k :: 0 <= k < i ==> times[k] < a) && (i < |times| ==> a <= times[i])
  {
    if times == [] || a <= times[0] then 0 else 1 + FirstFrom(times[1..], a)
  }

  /** Whatever the calls, no window [a, b] of a nondecreasing clock sees more than burst + rate * (b - a)
      of them succeed. */
  lemma {:induction false} WindowBound(rate: real, burst: real, times: seq<real>, a: real, b: real)
    requires rate >= 0.0 && burst >= 0.0 && Nondecreasing(times) && a <= b
    ensures SuccessesWithin(rate, burst, times, a, b) as real <= Limit(rate, burst, b - a)
    decreases |times|
  {
    var n := |times|;
    if n > 0 && times[n - 1] > b {
      WindowBound(rate, burst, times[..n - 1], a, b);
    } else {
      OpenWindowBound(rate, burst, times, a, b, FirstFrom(times, a));
    }
  }

  lemma OpenWindowBound(rate: real, burst: real, times: seq<real>, a: real, b: real, i: nat)
    requires rate >= 0.0 && burst >= 0.0 && Nondecreasing(times) && a <= b && i <= |times|
    requires forall k :: 0 <= k < i ==> times[k] < a
    requires i < |times| ==> a <= times[i] && times[|times| - 1] <= b
    ensures SuccessesWithin(rate, burst, times, a, b) as real <= Limit(rate, burst, b - a)
  {
    WithinIsSpan(rate, burst, times, a, b, i);
    LateCallsBound(rate, burst, times, i, b - a);
  }

  lemma LateCallsBound(rate: real, burst: real, times: seq<real>, i: nat, width: real)
    requires rate >= 0.0 && burst >= 0.0 && Nondecreasing(times) && i <= |times| && width >= 0.0
    requires i < |times| ==> times[|times| - 1] - times[i] <= width
    ensures Successes(burst, Earned(rate, times), i) as real <= Limit(rate, burst, width)
  {
    var n, es := |times|, Earned(rate, times);
    var got := Successes(burst, es, i) as real;
    if i == n {
      WiderRoom(got, rate, burst, 0.0, 0.0, width);
    } else {
      assert got <= burst + (es[n - 1] - es[i]) by {
        EarnedInOrder(rate, times);
        SpanBound(burst, es, i);
      }
      EarnedBetween(rate, times, i, n - 1);
      WiderRoom(got, rate, burst, es[n - 1] - es[i], times[n - 1] - times[i], width);
    }
  }

  lemma WiderRoom(got: real, rate: real, burst: real, earned: real, span: real, width: real)
    requires rate >= 0.0 && span <= width && earned == rate * span && got <= burst + earned
    ensures got <= Limit(rate, burst, width)
  {
    ProductMonotone(rate, span, width);
  }

  lemma GainIsEarned(rate: real, burst: real, times: seq<real>, was: real)
    requires rate >= 0.0 && times != [] && was <= times[|times| - 1]
    requires |times| > 1 ==> was == times[|times| - 2]
    ensures var n := |times| - 1; var gain := Gain(rate, was, times[n]);
      Before(burst, Earned(rate, times)) == Refill(burst, Tokens(burst, Earned(rate, times[..n])), gain)
  {
    var n := |times| - 1;
    ProductNonnegative(rate, times[n] - was);
    if n > 0 { EarnedBetween(rate, times, n - 1, n); }
  }

  /** A bucket object driven through `times` answers and holds what the value model says. */
  method Drive(rate: real, burst: real, start: real, times: seq<real>) returns (taken: seq<bool>, left: real)
    requires rate >= 0.0 && Nondecreasing([start] + times)
    ensures |taken| == |times| && left == Tokens(burst, Earned(rate, times))
    ensures forall i :: 0 <= i < |times| ==> taken[i] == Taken(burst, Earned(rate, times[..i + 1]))
  {
    var bucket := new TokenBucket(rate, burst, start);
    taken := [];
    for i := 0 to |times|
      invariant |taken| == i && bucket.rate == rate && bucket.burst == burst
      invariant bucket.tokens == Tokens(burst, Earned(rate, times[..i]))
      invariant bucket.t == if i == 0 then start else times[i - 1]
      invariant forall j :: 0 <= j < i ==> taken[j] == Taken(burst, Earned(rate, times[..j + 1]))
    {
      assert times[..i + 1][..i] == times[..i];
      assert [start] + times == [start] + times[..i] + times[i..];
      ghost var was := bucket.t;
      assert was == ([start] + times)[i] && times[i] == ([start] + times)[i + 1];
      GainIsEarned(rate, burst, times[..i + 1], was);
      var ok := bucket.Take(times[i]);
      taken := taken + [ok];
    }
    assert times[..|times|] == times;
    left := bucket.tokens;
  }
}

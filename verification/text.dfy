/** Python string helpers the components share. */
module Text {

  function Digit(n: nat): char
    requires n < 10
  {
    ['0', '1', '2', '3', '4', '5', '6', '7', '8', '9'][n]
  }

  /** `str(n)`. */
  function Decimal(n: nat): (s: string)
    ensures |s| > 0 && forall i :: 0 <= i < |s| ==> '0' <= s[i] <= '9'
  {
    if n < 10 then [Digit(n)] else Decimal(n / 10) + [Digit(n % 10)]
  }

  lemma DigitInjective(m: nat, n: nat)
    requires m < 10 && n < 10 && Digit(m) == Digit(n)
    ensures m == n
  {
    assert forall k: nat :: k < 10 ==> Digit(k) as int == '0' as int + k;
  }

  lemma {:induction false} DecimalInjective(m: nat, n: nat)
    requires Decimal(m) == Decimal(n)
    ensures m == n
  {
    var s, t := Decimal(m), Decimal(n);
    assert s[|s| - 1] == Digit(m % 10) && t[|t| - 1] == Digit(n % 10);
    DigitInjective(m % 10, n % 10);
    if m >= 10 && n >= 10 {
      assert s[..|s| - 1] == Decimal(m / 10) && t[..|t| - 1] == Decimal(n / 10);
      DecimalInjective(m / 10, n / 10);
    }
  }

  function Pow10(k: nat): nat { if k == 0 then 1 else 10 * Pow10(k - 1) }

  lemma {:induction false} DecimalLength(n: nat, k: nat)
    requires k > 0 && n < Pow10(k)
    ensures |Decimal(n)| <= k
  {
    if n >= 10 { DecimalLength(n / 10, k - 1); }
  }

  // ---- whitespace ----------------------------------------------------------------------------------

  /** `str.isspace` for one character. */
  predicate IsSpace(c: char) {
    var n := c as int;
    || 9 <= n <= 13 || 28 <= n <= 32 || n == 0x85 || n == 0xA0 || n == 0x1680 || 0x2000 <= n <= 0x200A
    || n == 0x2028 || n == 0x2029 || n == 0x202F || n == 0x205F || n == 0x3000
  }

  function LStrip(s: string): string { if s != [] && IsSpace(s[0]) then LStrip(s[1..]) else s }

  function RStrip(s: string): string { if s != [] && IsSpace(s[|s| - 1]) then RStrip(s[..|s| - 1]) else s }

  /** `str.strip()`. */
  function Strip(s: string): string { LStrip(RStrip(s)) }

  /** Neither end is whitespace. */
  predicate Tight(s: string) { s == [] || (!IsSpace(s[0]) && !IsSpace(s[|s| - 1])) }

  lemma {:induction false} LStripTight(s: string)
    requires s == [] || !IsSpace(s[|s| - 1])
    ensures Tight(LStrip(s))
    ensures forall c :: c in LStrip(s) ==> c in s
  {
    if s != [] && IsSpace(s[0]) { LStripTight(s[1..]); }
  }

  lemma {:induction false} RStripClean(s: string)
    ensures RStrip(s) == [] || !IsSpace(RStrip(s)[|RStrip(s)| - 1])
    ensures forall c :: c in RStrip(s) ==> c in s
  {
    if s != [] && IsSpace(s[|s| - 1]) { RStripClean(s[..|s| - 1]); }
  }

  lemma StripTight(s: string)
    ensures Tight(Strip(s)) && (Tight(s) ==> Strip(s) == s)
    ensures forall c :: c in Strip(s) ==> c in s
  {
    RStripClean(s);
    LStripTight(RStrip(s));
  }

  /** What stands before a tight end is kept by `RStrip`. */
  lemma {:induction false} RStripAppend(a: string, b: string)
    ensures RStrip(a + b) == if RStrip(b) == [] then RStrip(a) else a + RStrip(b)
  {
    if b == [] {
      assert a + b == a;
    } else {
      var n := |b| - 1;
      assert (a + b)[..|a + b| - 1] == a + b[..n];
      if IsSpace(b[n]) { RStripAppend(a, b[..n]); }
    }
  }

  /** `s.rstrip().strip() == s.strip()`. */
  lemma {:induction false} StripRStrip(s: string)
    ensures Strip(RStrip(s)) == Strip(s)
  {
    RStripClean(s);
  }

  lemma {:induction false} RStripShorter(s: string)
    ensures |RStrip(s)| <= |s|
  {
    if s != [] && IsSpace(s[|s| - 1]) { RStripShorter(s[..|s| - 1]); }
  }

  lemma {:induction false} LStripShorter(s: string)
    ensures |LStrip(s)| <= |s|
  {
    if s != [] && IsSpace(s[0]) { LStripShorter(s[1..]); }
  }

  /** `str.replace(pattern, other)`. */
  function Replace(s: string, pattern: string, other: string): (r: string)
    requires pattern != []
    ensures forall c :: c in r ==> c in s || c in other
  {
    if |s| < |pattern| then s
    else if s[..|pattern|] == pattern then other + Replace(s[|pattern|..], pattern, other)
    else [s[0]] + Replace(s[1..], pattern, other)
  }

  lemma {:induction false} ReplaceShorter(s: string, pattern: string, other: string)
    requires 0 < |pattern| && |other| <= |pattern|
    ensures |Replace(s, pattern, other)| <= |s|
  {
    if |s| >= |pattern| {
      if s[..|pattern|] == pattern {
        ReplaceShorter(s[|pattern|..], pattern, other);
      } else {
        ReplaceShorter(s[1..], pattern, other);
      }
    }
  }
}
